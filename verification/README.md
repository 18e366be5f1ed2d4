# Proofs about the RTDuo runtime

This project models the two stacks at the centre of the runtime and proves what they promise.

**The event bus on its own heap.** `Pools.Pool` is the allocator of `bmalloc.c`, with its headers in a byte array
and, as ghost state, the blocks they describe. `NodeLists` are the linked lists of `linklist.c` in the same bytes.
`EventBuses.EventBus` is the scheduler of `emos.c` over both; `PostScripts` says what a list of posts comes to, given
registry and pool; `Rtbuses.Rtbus` adds the delayed events of `rtbus.c` on a wrapping clock. `BusRuns` is the bus without any memory: three queues, the events accepted, those taken from
the queues and those handled. Every method of the concrete bus is tied to it, and its runs carry the properties
(conservation, priorities, SYS_INIT first, fair polling).

**Firmware transfer.** `Packer` builds the image of `system/header.c` and `IntelHex` its HEX file. `YmodemSender` is
`send_ymodem`, `YmodemReceiver` the machine behind `rtbus_ymodem_recv` and `YmodemTask.Receiver` that routine itself,
calling `ImageStores.ImageStore` (`rtbus_image.c`) over `Flash.FlashArea`. `YmodemLink` joins sender and receiver by
reliable lines and by the router of port 0, which the host's bytes still pass during a transfer; `YmodemRuns` says where
every run of that system ends, `YmodemOverrun` how large the receive ring under it must be, and `YmodemUpload` follows
an upload from the sender's bytes into the slot.

`CrcLaws` and `ImageLaws` say what makes the checksums those of their standards and what the checks of an image notice.

**The edges.** `PortRouting.PortRouter` takes command lines out of the stream of port 0, `RxRings.RxRing` is the
ring behind it, `CommandLines.CommandLine` puts command lines together again, and `CliWake` is the wake-up protocol
between interrupts, work queue and runtime thread.

## How to read it

- Methods model C functions; each says in its comment which one. Their contracts tie the new state to a function of
  the old one, or state the result outright. Lemmas about those functions carry the properties over whole runs.
- A handler is a script: the posts it makes while it runs. The async hook is a script and a return code.
- A flash operation may fail at any call. `FlashArea.faults` counts failures and `rewrites` counts programs of a cell
  already in use, so a contract can say "no fault" and "no cell programmed twice".
- The line of a receiver or uploader is a script of bytes, seconds of silence and expired waits; after its end there
  is only silence. The replies of the store are part of a receiver's history.
- The pool is laid out as on the 32-bit target: 8-byte block headers, 4-byte links, a 16-byte event node in front of
  the payload. Address 0 is the null pointer.

## Where the code does not give the naive property

- A due delayed event whose post is refused ends `rtbus_process` before the bus runs, in every call. The bus runs, once
  and with its own result, exactly if no due event is blocked and the pool has room for the nodes of all of them, one
  after the other: `Rtbuses.Rtbus.Process`. Nodes that fit together above the high-water mark are enough
  (`Rtbuses.MovableAboveMark`); one overdue event for an unregistered task, or one node too many, is enough to stop it
  (`Rtbuses.UnknownTaskBlocks`, `Rtbuses.FullPoolBlocks`), for as long as the event stays overdue
  (`Rtbuses.BlockedStays`).
- The wrap test on due times is right exactly within half a turn of the clock: `Clock.DueReachedExact`.
- `emos_init` on a usable pool and table succeeds exactly if the pool has room for the INIT nodes, 24 bytes each, behind
  its aligned base: `EventBuses.EventBus.Init`, with `EventBuses.PoolTooSmall` on both sides of the limit.
- Busy blocks and queue nodes do not correspond in every state. A start at a refused address empties the queues and leaves
  the pool as it is: the two correspond after `emos_init` exactly if address and size are not 0 or nothing was live before
  (`EventBuses.EventBus.Init`, with `EventBuses.RefusedRestart` for a bus whose SYS_INIT node stays behind). `stale` marks
  this state; in every other one there is one busy block for each queued event (`EventBuses.EventBus.OneBlockEach`), and
  empty queues mean an empty pool (`EventBuses.EventBus.DrainedPoolIsEmpty`).
- The 32-bit sums of `bmalloc` are exact up to 0xFFFFFFF4 bytes and for no larger request: `Pools.Needed32Exact`.
- A store write that fails once it has begun leaves bytes in the store that are not counted. The counters agree, and the
  writer invariant holds, exactly after a write that was accepted or refused at once: `ImageStores.ImageStore.Write`. A
  retry puts the same bytes behind the first ones: `ImageStores.ImageStore.RetriedWrite`. The receiver finishes such a
  session with the error (`YmodemReceiver.ReceiverSafe`).
- The size survives the header block exactly if name, NUL and digits fit into 127 bytes and the size is below 2^32:
  `YmodemSize.HeaderRoundTrip`.
- The router takes what looks like a command line out of a transfer too. An upload delivers the whole file exactly if the
  header block fits, the size is below 2^32 and no '@' stands at a line start of the bytes to be sent:
  `YmodemRuns.WholeFileIff`. A line feed followed by '@' inside a block of the file is enough to make it hang:
  `YmodemRuns.LineFeedAtBlocksUpload`.
- One interrupt submits a whole command line before the runtime thread can fetch any of it. Behind `q` queued bytes a line
  arrives exactly if `q` plus its length plus one is at most 128 (`CommandLines.LineArrivesIff`); a longer one, such as an
  '@' and 127 more bytes put into an empty queue (`CommandLines.LongLineLost`), loses its end and its line feed, and what
  is left of it runs into the next line (`CommandLines.CutLineRunsOn`).
- A receive ring that overwrites its oldest bytes loses none of a transfer exactly from 1030 bytes on
  (`YmodemOverrun.NothingOverrun`, `YmodemOverrun.FullFlight`, `YmodemOverrun.SmallRingOverrun`). The configuration allows
  256 bytes and defaults to 2048.
- If posting the wake event fails, bytes can stay in the queue with nobody to fetch them
  (`CliWake.FailedPostStrandsByte`): exactly if the last post of the run failed and the queue was not empty when the work
  handler gave up on it (`CliWake.BytesLeftIff`). A later byte with a successful post recovers them
  (`CliWake.NewByteRecovers`, `CliWake.GoodPostRecovers`), unless the queue is full: then every later byte is dropped
  before it can wake anybody, and the interpreter stays deaf (`CliWake.FullQueueLeft`).

## Model

| member | source | states |
|---|---|---|
| Blocks.LastBlockBusy | zephyr/modules/rtbus/lib/bmalloc.c:230-263 | a tiled heap without two adjacent free blocks, whose free blocks are each followed by a busy one, ends in a busy block |
| Blocks.HighWaterFromBusy | zephyr/modules/rtbus/lib/bmalloc.c:230-263 | the busy blocks alone determine the high-water mark, whatever the order in which others were freed |
| Blocks.HeapFromBusy | zephyr/modules/rtbus/lib/bmalloc.c:127-271 | two heaps with the same busy blocks are the same heap: history leaves no other trace |
| Blocks.EmptyWhenNothingBusy | zephyr/modules/rtbus/lib/bmalloc.c:230-263 | when nothing is allocated the mark is back at the base and no block is left |
| HeapSteps.CarveTiles | zephyr/modules/rtbus/lib/bmalloc.c:97-109 | taking a free block, with or without a new hole behind it, keeps the tiling of [base, high-water) |
| HeapSteps.CarveCoalesced | zephyr/modules/rtbus/lib/bmalloc.c:97-109 | it leaves no two adjacent free blocks and no free block at the end |
| HeapSteps.ReleaseKeeps | zephyr/modules/rtbus/lib/bmalloc.c:230-263 | freeing keeps tiling and coalescing, removes exactly that busy block, and rolls the mark back when the tail is free |
| HeapSteps.RoomAboveMark | zephyr/modules/rtbus/lib/bmalloc.c:151-183 | requests that together fit above the high-water mark can all be met, whatever the holes below |
| HeapSteps.RoomWithoutHoles | zephyr/modules/rtbus/lib/bmalloc.c:151-183 | in a pool without holes requests can be met exactly if they fit above the mark |
| PoolMemory.PayloadsDisjoint | zephyr/modules/rtbus/lib/bmalloc.c:127-199 | payloads of different blocks never overlap, nor does a payload touch a header |
| PoolMemory.CutSound | zephyr/modules/rtbus/lib/bmalloc.c:97-109 | the header stores of a split leave memory describing the split heap and all other live payloads unchanged |
| PoolMemory.ReleaseSound | zephyr/modules/rtbus/lib/bmalloc.c:230-263 | the header stores of a free leave memory describing the coalesced heap and all other live payloads unchanged |
| Pools.Pool.Init | zephyr/modules/rtbus/lib/bmalloc.c:57-91 | an empty heap from the aligned base to the last byte, active exactly if more than one header fits; bytes outside are untouched |
| Pools.Pool.Alloc | zephyr/modules/rtbus/lib/bmalloc.c:127-199 | NULL exactly when the rounded size fits neither above the mark nor in any free block: then there is less room above the mark than size and header, and every free block is smaller than both; else an aligned new block, at the mark or in the lowest free block that is large enough, at most one header too large; the blocks afterwards are a function of those before; no other live payload changes |
| Pools.Needed32Exact | zephyr/modules/rtbus/lib/bmalloc.c:141-151 | the 32-bit size sums are exact exactly up to 0xFFFFFFF4; beyond, they come to at most one header, which passes the room test |
| Pools.Pool.FindFit | zephyr/modules/rtbus/lib/bmalloc.c:163-183 | the scan ends at the lowest free block of at least the size and a header, or shows that there is none |
| Pools.Pool.Grow | zephyr/modules/rtbus/lib/bmalloc.c:151-160 | the block appended at the mark is zeroed and the mark moves behind it |
| Pools.Pool.Reuse | zephyr/modules/rtbus/lib/bmalloc.c:97-109 | a free block becomes live, with the usable tail as a hole |
| Pools.Pool.Free | zephyr/modules/rtbus/lib/bmalloc.c:212-271 | exactly the named block stops being live; anything that is not the payload of a live block, as in a double free, changes nothing at all; no live payload changes |
| Pools.Pool.FreeThenAlloc | zephyr/modules/rtbus/lib/bmalloc.c:127-271 | a block that is given back is room for any request no larger than its payload, whatever else the pool holds |
| NodeLists.LastNode | zephyr/modules/rtbus/lib/linklist.c:29-40 | the walk ends at the last node of the list |
| NodeLists.FindNode | zephyr/modules/rtbus/lib/linklist.c:69-86 | the walk finds the target with its predecessor, or the end when the target is no node |
| NodeLists.Count | zephyr/modules/rtbus/lib/linklist.c:177-200 | the length of the list |
| NodeLists.Get | zephyr/modules/rtbus/lib/linklist.c:203-235 | the node at an index, NULL beyond the end |
| NodeLists.New | zephyr/modules/rtbus/lib/linklist.c:17-63 | the list grows by a fresh block at its end, or nothing changes when the pool has no room; only the link to the new node changes in live payloads |
| NodeLists.Remove | zephyr/modules/rtbus/lib/linklist.c:65-107 | exactly the target leaves the list, in place, and its block is freed; a foreign target changes nothing |
| NodeLists.RemoveLinks | zephyr/modules/rtbus/lib/linklist.c:88-103 | after the unlinking stores memory holds the list without that node |
| Entries.CountRepeated | zephyr/modules/rtbus/src/rtbus_entries.c:41-52 | counting ids finds a repetition exactly where another entry has the same id |
| Entries.Registry.Find | zephyr/modules/rtbus/src/rtbus_entries.c:17-30 | the first entry with the id, or none |
| Entries.Registry.IsDuplicate | zephyr/modules/rtbus/src/rtbus_entries.c:41-52 | true exactly if another entry has the same id |
| Entries.Registry.Init | zephyr/modules/rtbus/src/rtbus_entries.c:54-79 | accepted exactly if the table is given, not empty, every entry has a priority below 3 and a handler, and no id occurs twice; otherwise the error is that of the first faulty entry |
| Entries.LookupMember | zephyr/modules/rtbus/src/rtbus_entries.c:17-30 | with distinct ids every entry finds itself |
| BusRuns.DispatchIsDequeueFirst | zephyr/modules/rtbus/src/emos.c:178-217 | handing out the head while its handler posts, and unlinking it afterwards, is the same as taking it out first and posting then |
| BusRuns.StepConserves | zephyr/modules/rtbus/src/emos.c:64-118 | every step keeps: for each priority, accepted events are those taken so far followed by those queued, in order |
| BusRuns.RunConserves | zephyr/modules/rtbus/src/emos.c:178-277 | in every run each accepted event is taken exactly once, in order within its priority, or still queued: nothing lost, doubled or reordered |
| BusRuns.HandsOutMostUrgent | zephyr/modules/rtbus/src/emos.c:178-214 | a queued step hands out the oldest event in the queue that the priority of its task's entry names, and no waiting event is of a task whose entry has a smaller priority number |
| BusRuns.RunMostUrgentFirst | zephyr/modules/rtbus/src/emos.c:178-214 | so in every run from a start: what waits is never more urgent, by the table, than what is handed out |
| BusRuns.RunInitFirst | zephyr/modules/rtbus/src/emos.c:138-176 | in every run after a successful start the first event an entry with `init` handles is SYS_INIT, whatever is posted or polled |
| BusRuns.InitPlaces | zephyr/modules/rtbus/src/emos.c:161-173 | the SYS_INIT events are one for each entry with `init` and for no other, in table order |
| BusRuns.RunConcat | zephyr/modules/rtbus/src/emos.c:257-277 | runs compose, so statements about runs cover repeated calls of the scheduler |
| BusRuns.RunKeeps | zephyr/modules/rtbus/src/emos.c:257-277 | from any state, a run keeps conservation and INIT-first |
| PollFairness.TurnRank | zephyr/modules/rtbus/src/emos.c:219-248 | the entry whose turn it is comes next in cyclic order among the polled ones |
| PollFairness.PollSchedule | zephyr/modules/rtbus/src/emos.c:219-248 | in every run the polled entries follow one another in cyclic order, whatever queued events are handled in between |
| PollFairness.WindowPollsEachOnce | zephyr/modules/rtbus/src/emos.c:219-248 | any k consecutive polls of a run, k being the number of entries with `always`, poll each of these entries exactly once and no other entry |
| PollFairness.OnlyAskingPolled | zephyr/modules/rtbus/src/emos.c:225-235 | in no run is an entry polled that does not have `always` |
| EventMemory.PostMemory | zephyr/modules/rtbus/src/emos.c:96-117 | a linked and filled node makes memory hold the queues with the event appended, busy blocks and nodes still one to one |
| EventMemory.PopMemory | zephyr/modules/rtbus/src/emos.c:205-209 | unlinking and freeing the head makes memory hold the queues without it, with all other contexts intact |
| EventMemory.QuietMeansNoLive | zephyr/modules/rtbus/src/emos.c:205-209 | with empty queues no block is live |
| EventBuses.EventBus.DrainedPoolIsEmpty | zephyr/modules/rtbus/src/emos.c:205-209 | with empty queues nothing is allocated and the high-water mark is at the base, exactly if no blocks of a bus given up at a refused address are left over |
| EventBuses.EventBus.OneBlockEach | zephyr/modules/rtbus/src/emos.c:64-136 | in every reachable state there is one busy block for each queued event, unless blocks of a bus given up at a refused address are left over; exactly then busy blocks and nodes do not correspond |
| EventBuses.EventBus.Post | zephyr/modules/rtbus/src/emos.c:64-118 | success appends exactly this event to the queue that the priority of its task's table entry names and places its node, failure changes nothing; return code and pool afterwards are fixed by arguments, registry and room |
| PostScripts.CodeTable | zephyr/modules/rtbus/src/emos.c:64-118 | each return code of a post by the table, the arguments and the blocks of the pool: no table, no entry of the task, a length without payload, 65535 bytes, no room |
| PostScripts.AllPosted | zephyr/modules/rtbus/src/emos.c:64-118 | every post of a list succeeds exactly if none is refused by its arguments and the pool has room for all their nodes, one after the other |
| EventBuses.EventBus.PostScript | zephyr/modules/rtbus/src/emos.c:64-118 | a handler's posts return what registry and pool decide, each in the pool its predecessors left, and have the effect of those that succeed, in order |
| EventBuses.EventBus.ProcessQueued | zephyr/modules/rtbus/src/emos.c:178-217 | the head of the highest non-empty priority is handed over with its context and payload, which are still there unchanged when the handler returns after its own posts, and exactly that event leaves; which of those posts succeed is fixed by registry and pool, in which the event's own node is still allocated |
| EventBuses.EventBus.TopQueue | zephyr/modules/rtbus/src/emos.c:184-214 | the first non-empty queue, or that all are empty |
| EventBuses.EventBus.FindPoll | zephyr/modules/rtbus/src/emos.c:225-235 | the next entry with `always` and a handler from the poll index on, around the table, or that there is none |
| EventBuses.EventBus.ProcessPoll | zephyr/modules/rtbus/src/emos.c:219-248 | an entry with `always` and a handler whose turn it is is polled once, with SYS_POLL, and the index moves behind it; its handler's posts are decided by registry and pool; 0 exactly if no entry has both |
| EventBuses.EventBus.Process | zephyr/modules/rtbus/src/emos.c:257-277 | one call takes the async posts, and unless the hook reports an error, which is then returned with nothing handled, hands out one queued event if there is one, else polls one entry if any is polled; the result says which; the events posted by hook and handler are exactly those that registry and pool let through, and the pool is left as these posts and the release of the handled node leave it |
| EventBuses.EventBus.InitPool | zephyr/modules/rtbus/src/emos.c:120-136 | all queues and entries are forgotten and the pool is laid out anew; at a refused address pool and memory stay as they are, and are stale exactly if a block was live |
| EventBuses.EventBus.Init | zephyr/modules/rtbus/src/emos.c:138-176 | succeeds exactly if address, size and table are usable and the INIT nodes fit behind the aligned base; then exactly the INIT events of the table are queued, in table order, and the mark is behind their nodes; a pool that is too small stops the posting midway with -ENOMEM; a refused address changes no pool memory, a refused table leaves an empty pool; busy blocks and nodes correspond afterwards exactly if address and size are not 0 or nothing was live before |
| EventBuses.PoolTooSmall | zephyr/modules/rtbus/src/emos.c:161-173 | one INIT event needs a pool of 25 bytes at address 4, and 24 are refused |
| EventBuses.RefusedRestart | zephyr/modules/rtbus/src/emos.c:120-136 | a bus with one queued SYS_INIT that is started again at address 0 has empty queues and one live block |
| Clock.DueReachedExact | zephyr/modules/rtbus/src/rtbus.c:51-54 | within a turn of the clock the 32-bit test is right exactly for events overdue by less than 2^31 ms or due in at most 2^31 ms |
| Clock.TimeoutExact | zephyr/modules/rtbus/src/rtbus.c:56-61 | within that window the remaining time is exact, clipped at 0 |
| Rtbuses.Rtbus.Init | zephyr/modules/rtbus/src/rtbus.c:68-81 | succeeds exactly when the bus does, with its errors; no delayed event survives in any case; a started bus is conserved and INIT-first; busy blocks and nodes correspond afterwards exactly as for the bus |
| Rtbuses.Rtbus.Post | zephyr/modules/rtbus/src/rtbus.c:83-94 | as the bus, with its exact result code, except that -ENOTSUP tells that the table has no entry of the task |
| Rtbuses.Rtbus.FreeSlot | zephyr/modules/rtbus/src/rtbus.c:127-136 | the first unused slot, or that all are used |
| Rtbuses.Rtbus.PostDelay | zephyr/modules/rtbus/src/rtbus.c:110-151 | a positive delay arms exactly one slot with the event and its true due time, or changes nothing; the error tells why; delay 0 posts at once |
| Rtbuses.Rtbus.NextTimeout | zephyr/modules/rtbus/src/rtbus.c:153-174 | -1 exactly if nothing is pending, else the exact minimum of the true remaining times, clipped at 0 |
| Rtbuses.Rtbus.RuntimeWait | zephyr/modules/rtbus/services/rtbus_runtime.c:39-53 | the wait never passes the earliest due time and is at most the maximum |
| Rtbuses.Rtbus.MoveDue | zephyr/modules/rtbus/src/rtbus.c:176-199 | due events are posted in slot order up to the first one refused, each once and never before its true due time, and the pool is left as these posts leave it; the others stay armed; none is refused exactly if none is blocked and the pool has room for all their nodes |
| Rtbuses.Rtbus.Process | zephyr/modules/rtbus/src/rtbus.c:201-211 | exactly if all due events can be posted they move and the bus runs once, with its result, handing out an event if any was queued, in the pool the moves have left, which decides over the posts of hook and handler, and no event whose true due time has come is left in the table; otherwise the call ends at the first refused one, which stays armed, with the code of its post, and nothing is handled |
| Rtbuses.Rtbus.Drain | zephyr/modules/rtbus/services/rtbus_runtime.c:39-53 | while nobody posts and no due event is refused, the queues are empty after exactly as many calls as events were queued or due at first, and no fewer; then the pool is empty and the mark back at the base |
| Rtbuses.MovableAboveMark | zephyr/modules/rtbus/src/rtbus.c:188-193 | due events that are not blocked can all be posted if their nodes fit together above the mark |
| Rtbuses.NothingDue | zephyr/modules/rtbus/src/rtbus.c:184-186 | without a due event the move always succeeds, so the bus runs |
| Rtbuses.UnknownTaskBlocks | zephyr/modules/rtbus/src/rtbus.c:188-193 | one overdue event for an unregistered task keeps the bus from running, whatever the pool and the other slots |
| Rtbuses.BlockedStays | zephyr/modules/rtbus/src/rtbus.c:188-208 | a blocked event is blocked again in every later call within 2^31 ms of its due time |
| Rtbuses.FullPoolBlocks | zephyr/modules/rtbus/src/rtbus.c:188-193 | a pool with 20 bytes left refuses the move of one event that 24 would hold |
| Rtbuses.DueTimedPassed | zephyr/modules/rtbus/src/rtbus.c:180-196 | every moved event's true due time has passed |
| Crc.ComputeCrc16 | zephyr/modules/rtbus/services/rtbus_ymodem.c:39-55 | the bit loop computes the CRC of the specification function |
| Crc.Crc16Concat | zephyr/modules/rtbus/services/rtbus_ymodem.c:39-55 | the CRC of a concatenation continues from the CRC of the first part |
| Crc.Crc16Injective | zephyr/modules/rtbus/services/rtbus_ymodem.c:39-55 | different checksums stay different over equal further bytes |
| Crc.OneByteChangeDetected | zephyr/modules/rtbus/services/rtbus_ymodem.c:39-55 | changing any one byte of any message changes its CRC-16 |
| Crc.MaskedShift | system/header.c:78-80 | the mask form of one CRC-32 step is the conditional exclusive-or |
| Crc.UpdateCrc32 | system/header.c:72-84 | the loop computes the CRC-32 of the specification function from any start value; that this is the CRC-32 of IEEE 802.3 is CrcLaws.CheckValue32 and CrcLaws.Residue32 |
| Crc.Crc32Chunks | zephyr/modules/rtbus/services/rtbus_image.c:150-205 | the checksum taken chunk by chunk, for every way of cutting, is that of one pass |
| CrcLaws.Residue32 | system/header.c:72-84 | data followed by its checksum, low byte first, has the checksum 0x2144DF1C, whatever the data |
| CrcLaws.CheckValue32 | system/header.c:72-84 | the checksum of "123456789" is 0xCBF43926 |
| CrcLaws.OneByteChangeDetected32 | system/header.c:72-84 | changing any one byte of any data changes its CRC-32 |
| CrcLaws.Residue16 | zephyr/modules/rtbus/services/rtbus_ymodem.c:39-55 | data followed by its CRC-16, high byte first, has CRC-16 0 |
| CrcLaws.CheckValue16 | zephyr/modules/rtbus/services/rtbus_ymodem.c:39-55 | the CRC-16 of "123456789" is 0x31C3 |
| Packer.PutFixedString | system/header.c:61-70 | the field is the text cut to leave a NUL, padded with NULs; earlier bytes are unchanged |
| Packer.BuildHeader | system/header.c:543-567 | the 128 bytes of the header, each field at its place |
| ImageHeader.ParseHeaderBytes | zephyr/modules/rtbus/services/rtbus_image.c:29-48 | the device reads back every field the packer wrote |
| ImageHeader.FieldsInPlace | system/header.c:543-567 | every field of a packed header stands at its offset, little-endian, the six layout words included |
| ImageHeader.HeaderMeans | zephyr/modules/rtbus/services/rtbus_image.c:102-143 | a header is accepted exactly if it starts with 4d 43 46 57 02 00 80 00 and its size word is between 1 and the capacity |
| ImageLaws.DamagedImageRefused | zephyr/modules/rtbus/services/rtbus_image.c:440-465 | an accepted image with one byte changed is answered -ENODATA when it is one of these eight, -EBADMSG when it is in the checksum or anywhere in the payload |
| Packer.PackedImageGood | system/header.c:543-567 | a packed image passes all of the device's checks exactly if its payload is not empty and its RAM is within the limit, and reports its size, CRC, RAM and flags |
| Packer.FieldString | system/header.c:61-70 | name and version come back as given, cut to the field |
| Flash.FlashArea.Write | zephyr/modules/rtbus/services/rtbus_image.c:288-296 | what a flash program does: refused off the alignment or outside the area, else exactly these cells, unless the device fails |
| ImageStores.BufferFlushed | zephyr/modules/rtbus/services/rtbus_image.c:262-299 | programming the padded buffer leaves flash holding all accepted bytes, then padding, then erased cells |
| ImageStores.FinalFlush | zephyr/modules/rtbus/services/rtbus_image.c:262-299 | after the last program the area holds the image followed by 0xff only |
| ImageStores.ImageStore.Begin | zephyr/modules/rtbus/services/rtbus_image.c:329-389 | opens an empty session on an erased area, with the error fixed by size, state and alignment when the device does not fail |
| ImageStores.ImageStore.Append | zephyr/modules/rtbus/services/rtbus_image.c:301-327 | however the bytes are cut, flash before the write offset followed by the pending bytes is all accepted bytes; programs are aligned, contiguous and never on a used cell |
| ImageStores.ImageStore.Write | zephyr/modules/rtbus/services/rtbus_image.c:391-414 | accepts bytes only at the next offset and within the size; the counters agree and the writer invariant holds afterwards exactly if the write was accepted or refused at once; after any other failure the store holds, uncounted, the first part of the data behind the accepted bytes |
| ImageStores.ImageStore.RetriedWrite | zephyr/modules/rtbus/services/rtbus_image.c:301-327 | where the buffer is no multiple of the write alignment a write and its retry both fail, and leave the data in the buffer twice while the count stands still |
| ImageStores.ImageStore.FlushFinal | zephyr/modules/rtbus/services/rtbus_image.c:262-299 | the staging area holds exactly the accepted bytes, then erased cells |
| ImageStores.ImageStore.Commit | zephyr/modules/rtbus/services/rtbus_image.c:207-260 | success leaves the slot starting with the staged image; nothing to do when the area is the slot |
| ImageStores.ImageStore.Verify | zephyr/modules/rtbus/services/rtbus_image.c:440-465 | without faults the answer is fixed by the stored bytes, whatever the writes before returned: -ENODATA for a header that is not recognised, -ENOMEM for too much RAM, -EBADMSG for a wrong checksum, else 0 |
| ImageStores.ImageStore.StoreCrc | zephyr/modules/rtbus/services/rtbus_image.c:179-205 | the chunk loop yields the CRC of the whole payload in the store |
| ImageStores.ImageStore.Finish | zephyr/modules/rtbus/services/rtbus_image.c:416-472 | 0 only when exactly the announced bytes came in and are a sound image, and then the slot starts with them, with the eight header bytes and a size word within the image; even after a write that failed it is 0 only with a sound image at the start of the slot; the session is closed in every case; before the commit a separate slot is untouched; without faults it succeeds exactly for a complete sound image, and an unsound one gets the error of its first failed check |
| ImageStores.ImageStore.GetStatus | zephyr/modules/rtbus/services/rtbus_image.c:474-513 | 0 only if the slot starts with the eight header bytes and a size word within the capacity and its payload matches the checksum; without faults every error is fixed by the slot's bytes, -ENODATA when any of the eight differs; `valid` exactly with 0; the fields are the header's, or all zero when the header is refused |
| ImageStores.ImageStore.ReadPayload | zephyr/modules/rtbus/services/rtbus_image.c:546-585 | returns exactly the bytes of the requested window, 128 bytes behind the start of the slot, cut to the end of the payload; without faults it fails exactly for a header that is not recognised |
| ImageStores.ImageStore.GetNativeMetadata | zephyr/modules/rtbus/services/rtbus_image.c:515-544 | the six layout words of a recognised header whose flags mark a native image, with the error fixed otherwise |
| ImageStores.InstalledIsRunnable | zephyr/modules/rtbus/services/rtbus_image.c:474-585 | whatever finish accepted, later status and payload reads accept and report as that image |
| YmodemPacket.PacketAccepted | zephyr/modules/rtbus/services/rtbus_ymodem.c:125-164 | an undamaged packet is accepted with its number and data |
| YmodemPacket.DamagedPacketRejected | zephyr/modules/rtbus/services/rtbus_ymodem.c:148-157 | a packet with any one byte changed after its start byte is never accepted |
| YmodemPacket.SendPacket | system/ymodem_upload.c:416-438 | what goes out on the line is a whole packet |
| YmodemSize.ValueOfDecimal | system/ymodem_upload.c:449-451 | the digits printed for a size denote it |
| YmodemSize.ReadFileSize | zephyr/modules/rtbus/services/rtbus_ymodem.c:166-179 | scan and conversion compute the announced size |
| YmodemSize.BlockText | system/ymodem_upload.c:440-456 | the name block holds name, NUL, size in decimal and NULs to its end |
| YmodemSize.KnownDecimal | system/ymodem_upload.c:450-451 | a size of 1024 is sent as the characters 31 30 32 34 |
| YmodemSize.SpaceSkipped | zephyr/modules/rtbus/services/rtbus_ymodem.c:178-178 | white space in front of the size does not count |
| YmodemSize.Signed | zephyr/modules/rtbus/services/rtbus_ymodem.c:178-178 | nor does a plus sign; a minus sign negates modulo 2^32 |
| YmodemSize.NoDigits | zephyr/modules/rtbus/services/rtbus_ymodem.c:178-178 | without a digit the size is 0 |
| YmodemSize.Saturates | zephyr/modules/rtbus/services/rtbus_ymodem.c:178-178 | a number of 2^32 or more is read as 2^32 - 1 |
| YmodemSize.HeaderRoundTrip | zephyr/modules/rtbus/services/rtbus_ymodem.c:166-179 | the size read equals the size sent exactly if name, NUL and digits fit into 127 bytes and the size is below 2^32 |
| YmodemReceiver.StepKeeps | zephyr/modules/rtbus/services/rtbus_ymodem.c:215-330 | every event keeps the receiver's invariant: fresh, one open session with faithful writes, or properly settled |
| YmodemReceiver.ReceiverSafe | zephyr/modules/rtbus/services/rtbus_ymodem.c:194-330 | for every stream, silence and store failure: writes are contiguous from 0, come only from sound packets in order 1, 2, ... modulo 256 and stay within the announced size; an opened session is finished exactly once; 0 is returned only after a successful finish with status 0 |
| YmodemReceiver.EveryAnswer | zephyr/modules/rtbus/services/rtbus_ymodem.c:194-330 | at every moment of every history: 06 alone is sent only for a block that was written without error or a transfer that was finished, 15 leaves store and counters as they are, 18 tells that the store refused, and no complete packet goes unanswered |
| YmodemReceiver.HeaderEnds | zephyr/modules/rtbus/services/rtbus_ymodem.c:219-251 | in place of a packet a byte 18 ends the routine with -ECANCELED, silence with -ETIMEDOUT, 01 and 02 begin a packet and nothing else does |
| YmodemReceiver.PacketEnds | zephyr/modules/rtbus/services/rtbus_ymodem.c:125-146 | a packet is complete after 132 or 1028 bytes behind its first; silence inside it ends the packet, not the routine |
| YmodemReceiver.NoSizeEnds | zephyr/modules/rtbus/services/rtbus_ymodem.c:270-273 | a name block without a size is answered with 15 and ends the routine with -EINVAL before the store is asked |
| YmodemTask.Receiver.WaitHeader | zephyr/modules/rtbus/services/rtbus_ymodem.c:104-123 | prompts until a byte comes or the wait expires, as the machine |
| YmodemTask.Receiver.ReadByte | zephyr/modules/rtbus/services/rtbus_ymodem.c:62-75 | the next byte, or the end of the wait, as the machine |
| YmodemTask.Receiver.ReadExact | zephyr/modules/rtbus/services/rtbus_ymodem.c:77-102 | the bytes of a whole packet, or a refusal when the line falls silent |
| YmodemTask.Receiver.ReadPacket | zephyr/modules/rtbus/services/rtbus_ymodem.c:125-164 | returns the block of a sound packet; everything else is refused as by the machine |
| YmodemTask.Receiver.TakeMetadata | zephyr/modules/rtbus/services/rtbus_ymodem.c:259-288 | the file name block opens the session for the announced size, or ends the routine |
| YmodemTask.Receiver.TakeData | zephyr/modules/rtbus/services/rtbus_ymodem.c:313-328 | a data block goes to the store, cut to the announced size; a failure finishes the session |
| YmodemTask.Receiver.TakeEnd | zephyr/modules/rtbus/services/rtbus_ymodem.c:290-304 | the closing block finishes the session and its result is returned |
| YmodemTask.Receiver.Recv | zephyr/modules/rtbus/services/rtbus_ymodem.c:194-330 | the routine follows the machine byte by byte; 0 means that the slot starts with the written bytes, as many as announced, and that they are a sound image; before a commit a separate slot is untouched; without faults a store with room refuses only an incomplete or unsound image |
| YmodemSender.Uploader.WaitByte | system/ymodem_upload.c:307-328 | ignores other bytes, fails on a cancel or when the wait expires |
| YmodemSender.Uploader.SendBlocks | system/ymodem_upload.c:458-482 | sends every block of the file in order, numbered modulo 256 and padded with 0x1a |
| YmodemSender.Uploader.Send | system/ymodem_upload.c:440-500 | sends exactly the messages of the protocol, each after the answer to the one before; 0 exactly if every answer came |
| YmodemSender.WireMessages | system/ymodem_upload.c:416-500 | first bytes, numbers and lengths of everything that goes over the line |
| YmodemSender.WireBlock | system/ymodem_upload.c:458-482 | the bytes of each data block are those of the file at their place, then 1a |
| YmodemSender.WireEnd | system/ymodem_upload.c:488-497 | the last packet is 128 bytes of 0 |
| YmodemSender.WireAnswers | system/ymodem_upload.c:440-500 | the bytes 06, 15 and 43 awaited after each message |
| YmodemSender.WaitingLaws | system/ymodem_upload.c:307-328 | while one is awaited a byte 18 or the end of the wait ends the upload in failure, and any other byte changes nothing |
| YmodemLink.LastStep | zephyr/modules/rtbus/services/rtbus_ymodem.c:240-328 | the last byte of each message moves the receiver on as the protocol expects and makes it give the expected answer |
| YmodemRuns.NeverStuck | system/ymodem_upload.c:440-500 | as long as nothing was taken out of the stream, a state in which nothing can happen is one of success on both sides |
| YmodemRuns.UploadCompletes | system/ymodem_upload.c:416-500 | in every order of events, with any number of prompts, an upload takes a bounded number of steps, has at most 1029 bytes in flight, never ends in failure and stores only the front of the file; it rests with both sides successful and the announced part stored exactly if no '@' stands at a line start of the bytes to be sent, and else with the sender waiting |
| YmodemRuns.WholeFileIff | system/ymodem_upload.c:440-500 | it ends with the whole file stored exactly if name, NUL and size fit into the header block, the size is below 2^32, and no '@' stands at a line start of the bytes to be sent |
| YmodemRuns.LineFeedAtBlocksUpload | zephyr/runtime/src/services/rtbus_serial.c:139-172 | a line feed and an '@' side by side in a block of the file break that condition |
| YmodemOverrun.HearsAll | zephyr/runtime/src/services/rtbus_serial.c:139-200 | at any time of any run the receiver has heard of the host's bytes exactly what the router leaves of them |
| YmodemOverrun.NothingOverrun | zephyr/runtime/src/services/rtbus_serial.c:76-93 | however far the router is ahead of the receiver, a ring of at least 1030 bytes still holds every byte of the transfer not yet read, in order |
| YmodemOverrun.FullFlight | system/ymodem_upload.c:458-482 | whenever the name block passes the router some run has all 1029 bytes of the first data block in flight |
| YmodemOverrun.SmallRingOverrun | zephyr/runtime/src/services/rtbus_serial.c:76-93 | and then the ring holds all of them exactly if it has at least 1030 bytes |
| YmodemUpload.Follow | zephyr/modules/rtbus/services/rtbus_ymodem.c:194-330 | whatever part of the sender's bytes is in, the receiver is where the protocol puts it, and has finished after the last |
| YmodemUpload.Upload | zephyr/modules/rtbus/services/rtbus_ymodem.c:194-330 | of a file whose messages pass the router, into a store without faults and with room, the upload returns 0 exactly if the file is a sound image, and then the slot starts with it |
| YmodemUpload.UploadAtOnce | zephyr/modules/rtbus/services/rtbus_ymodem.c:194-330 | the same over a line that brings what the router leaves of the sender's bytes without a pause |
| YmodemUpload.ReportedAsPacked | zephyr/modules/rtbus/services/rtbus_image.c:474-513 | an installed image from the packer is reported with the packed name, version, size, CRC, RAM and flags, and payload reads return the packed payload |
| IntelHex.WriteRecord | system/header.c:357-378 | one record: length, address, type, data, and the checksum that makes them sum to 0 modulo 256 |
| IntelHex.ChecksumCancels | system/header.c:373-373 | the bytes of every record sum to 0 modulo 256 |
| IntelHex.RecordRead | system/header.c:357-378 | every emitted record is read back as it was meant, whatever follows it |
| IntelHex.RowsReadBack | system/header.c:395-441 | the emitted file reads back as exactly the image at base, base + 1, ... modulo 2^32, for every base and length, rows across 64 KiB boundaries included |
| IntelHex.WriteComponent | system/header.c:380-445 | the file written for header and payload reads back as both at the base address |
| IntelHex.UpperRecord | system/header.c:414-426 | an address record is 02 0000 04, the upper half with its high byte first, and the checksum |
| IntelHex.KnownDigits | system/header.c:362-370 | two upper-case digits, the high one first |
| IntelHex.KnownFile | system/header.c:380-445 | the whole text of a file with one byte, by the bytes of its three records |
| PortRouting.OneMoreKept | zephyr/runtime/src/services/rtbus_serial.c:139-172 | a byte is the application's exactly if it neither opens nor belongs to a command line |
| PortRouting.OneMoreCommand | zephyr/runtime/src/services/rtbus_serial.c:123-137 | a command line counts when its terminator comes, if it has at most 255 bytes |
| PortRouting.UnchangedIffNoCommand | zephyr/runtime/src/services/rtbus_serial.c:139-172 | a stream passes unchanged exactly if no '@' stands at the start of a line |
| PortRouting.PlainBytes | zephyr/runtime/src/services/rtbus_serial.c:139-172 | by the bytes: exactly if no 40 comes first or behind 0a or 0d |
| PortRouting.ControlLine | zephyr/runtime/src/services/rtbus_serial.c:123-172 | a line that starts with 40 and is ended by 0a or 0d goes to the interpreter if it has at most 255 bytes, and never to the application |
| PortRouting.OtherLine | zephyr/runtime/src/services/rtbus_serial.c:139-172 | a line that starts with anything else goes to the application, end included |
| PortRouting.KeepsPlain | zephyr/runtime/src/services/rtbus_serial.c:139-172 | behind a stream without command lines a byte is kept exactly if it is no '@' at a line start |
| PortRouting.BehindTerminator | zephyr/runtime/src/services/rtbus_serial.c:139-172 | what comes behind a terminated line, such as the one that asks for a transfer, is routed as if it came first |
| PortRouting.PortRouter.SubmitLine | zephyr/runtime/src/services/rtbus_serial.c:123-137 | the buffered line and a line feed go to the interpreter, unless it was too long |
| PortRouting.PortRouter.Route | zephyr/runtime/src/services/rtbus_serial.c:139-172 | at any time the bytes kept are the stream without its command lines, and the bytes submitted are its terminated command lines of at most 255 bytes, in order |
| PortRouting.PortRouter.Receive | zephyr/runtime/src/services/rtbus_serial.c:174-200 | a burst puts exactly the application's bytes into the ring, which then holds the newest of the unread ones |
| RxRings.RxRing.Put | zephyr/runtime/src/services/rtbus_serial.c:76-93 | the ring holds the newest bytes put in since the last one read or the last clear, in order, at most one fewer than its size |
| RxRings.RxRing.Get | zephyr/runtime/src/services/rtbus_serial.c:105-121 | the oldest of them, exactly if there is one |
| RxRings.RxRing.Clear | zephyr/runtime/src/services/rtbus_serial.c:95-103 | nothing is left to read |
| CommandLines.CommandLine.ProcessByte | zephyr/modules/rtbus/services/rtbus_cli.c:166-180 | at any time the lines dispatched and the line in progress are those of all bytes heard |
| CommandLines.OnlyWholeLines | zephyr/modules/rtbus/services/rtbus_cli.c:166-180 | whatever is heard, no dispatched line is empty, longer than 255 bytes or has a line end in it |
| CommandLines.LineEnds | zephyr/modules/rtbus/services/rtbus_cli.c:166-180 | 0a or 0d dispatches what is in progress, if anything |
| CommandLines.Overlong | zephyr/modules/rtbus/services/rtbus_cli.c:166-180 | with 255 bytes in progress a further byte drops them and itself |
| CommandLines.CommandsArrive | zephyr/modules/rtbus/services/rtbus_cli.c:127-180 | what the router submits for any stream is put together again to exactly the stream's command lines, when the queue takes every byte |
| CommandLines.LineArrivesIff | zephyr/runtime/src/services/rtbus_serial.c:123-137 | a line submitted by one interrupt behind q queued bytes is put together again exactly if q plus its length plus one is at most 128; otherwise exactly its end and the line feed are lost |
| CommandLines.CutLineRunsOn | zephyr/modules/rtbus/services/rtbus_cli.c:166-180 | what is left of a cut line is dispatched as the front of the next one |
| CommandLines.LongLineLost | zephyr/modules/rtbus/services/rtbus_cli.c:182-195 | a control line of 128 bytes that the router submits into an empty queue is never dispatched |
| CliWake.TokensAlways | zephyr/modules/rtbus/services/rtbus_cli.c:182-223 | in every interleaving `pending` is set exactly while one wake token exists, there is at most one input event on the bus, and accepted bytes are handled in order |
| CliWake.Settles | zephyr/modules/rtbus/services/rtbus_cli.c:182-223 | without new bytes every interleaving comes to rest within a bounded number of steps |
| CliWake.NoLostWakeup | zephyr/modules/rtbus/services/rtbus_cli.c:182-223 | while posts succeed, no interleaving rests before every accepted byte is handled |
| CliWake.GoodPostRecovers | zephyr/modules/rtbus/services/rtbus_cli.c:182-223 | whatever failed before, after a successful post and no later failure a run that rests has handled every accepted byte |
| CliWake.BytesLeftIff | zephyr/modules/rtbus/services/rtbus_cli.c:197-223 | in every run that rests, bytes are left behind exactly if the last post failed and the queue was not empty when the work handler gave up on it |
| CliWake.NewByteRecovers | zephyr/modules/rtbus/services/rtbus_cli.c:182-207 | one more accepted byte with a successful post gets a resting machine going again |
| CliWake.FullQueueLeft | zephyr/modules/rtbus/services/rtbus_cli.c:188-195 | a burst of 128 bytes whose one post fails leaves the queue full, and nothing that can happen afterwards changes anything |
| CliWake.FailedPostStrandsByte | zephyr/modules/rtbus/services/rtbus_cli.c:203-206 | a run with a failing post after which a byte stays queued and everybody rests |

## Left out

- Handlers that arm delayed events while they run: `post_delay` is modelled between calls of `process`; it touches
  neither pool nor queues.
- Several pools (`POOL_NUM_MAX`) and the pool switching around them: one pool is modelled.
- Preemption inside allocator and list calls; the code documents a single scheduler thread, and posts count as atomic,
  also the one from the work queue.
- `linklist_reidx`, which nothing calls.
- Pools.Pool.Alloc: is stated for requests up to 0xFFFFFFF4 bytes; a larger one makes the 32-bit sums wrap, and what the
  code then does to memory outside the pool is not modelled.
- CliWake.TokensAlways: does not model `rtbus_cli_input_enabled`, which is cleared during a transfer; a byte it turns away
  is one for which no move is made.
- Payload lengths for which the 32-bit `alloc_len` of a post would wrap; a post is modelled for lengths where it does
  not.
- The weak hooks after a post (`emos_post_after`, `rtbus_post_after`), which do nothing by default.
- The copy of `rtbus_entries.c` over linker sections (`rtbus_iterable.c`), which keeps the same contract.
- Null out-pointers of the image calls, and slot alignments above 128 that do not come from a multiple of it.
- Flash areas whose size is not a multiple of their write alignment.
- YmodemSize.ReadFileSize: does not model `strtoul` reading digits behind the end of a full block into what follows in
  memory; digits end with the block, as in `YmodemSize.ParseSize`.
- Waiting times: a wait expires, or a second passes, whenever the script says so. A serial port that fails to open,
  and host-side read and write errors, are not modelled.
- YmodemRuns.UploadCompletes: assumes lines that lose nothing (for the ring on the device this is
  `YmodemOverrun.NothingOverrun`) and waits that do not expire, since a repeated block is refused and the sender never
  sends one again.
- The textual READY and ERROR messages around the transfer (`wait_ready_and_crc` beyond the prompt,
  `wait_final_status`).
- Command lookup and the handlers of the command interpreter, the native service, the BLE service, USB, GPIO, the
  runtime ABI table and the devices underneath.
- CommandLines.CommandsArrive: assumes that the 128-byte input queue takes every byte; `CommandLines.LineArrivesIff` says
  for one line when it does.
- Files and paths in `header.c` and `ymodem_upload.c`, reading symbols from a map, exporting, and write errors while
  a HEX file is printed.
