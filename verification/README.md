# Proofs about the ldd3 drivers and the aesd socket server

This project models the stateful cores of the drivers and of the server above one of them, and proves what they keep over
every run. Each core maintains a low-level structure that stands for something simpler:

- **scull/pipe.c**: a ring with one slot kept free stands for a bounded byte queue (`PipeRing`, `ScullPipe`); readers and
  writers that drop the mutex, sleep, look again and wake each other form a step system (`PipeProtocol`), in which each call
  is followed to its end (`PipeCalls`).
- **shortprint/shortprint.c**, output side: a ring whose producer reads the consumer's pointer without the spinlock
  (`ShortPrint`), what becomes of each caller's bytes (`ShortPrintCalls`), and when its waiting writer is never woken
  (`ShortPrintStall`).
- **aesd-char-driver**: ten slots of allocated commands and a partial line stand for the last ten lines written
  (`AesdSpec`, `AesdBuffer`, `AesdDevice`); the socket server gives its clients a linearised view of it (`AesdServer`,
  `AesdServerRuns`).
- **scull/main.c**: a linked list of pointer arrays of quanta stands for a sparse byte map (`ScullGeometry`, `ScullImage`,
  `ScullStore`, `ScullTransfer`).
- **scullp**: the same with blocks of pages that processes can map (`ScullpDevice`, `ScullpMaps`).
- **scull/access.c**: the single-open counter and the blocking open by user (`SingleOpen`, `BlockingOpen`,
  `BlockingCalls`).
- **snull/snull.c**: two packet pools that feed each other's receive lists (`SnullPool`).

Code that updates fields in place is a class whose methods are proved against functions on values. Interleavings are step
systems: a function `Next` takes one step of one process, a step that is not enabled leaves the state alone, and results are
stated for the state after any sequence of steps.

`dafny verify dfyconfig.toml` checks everything. Some proofs use `hide`, which only takes definitions away from the
verifier to make them cheap.

## What the proofs found

The code is modelled as it is. Where it does not do what it sets out to do, the project has a concrete run or input that
shows it and the exact condition under which the intended property holds.

- shortprint: the worker's test `(PAGE_SIZE + tail - head) % PAGE_SIZE > SP_MIN_SPACE` is 0 for an empty ring, so the byte
  that empties the ring wakes nobody. A writer whose unlocked look at `tail` came before it sleeps for ever
  (`WakeUpCanBeLost`); a sleeping writer is lost exactly when the ring is empty (`DoomedIffRingEmpty`).
- aesdchar: with a full ring, seeking to a command number of 10 or more is accepted when the offset fits the newest command,
  and leads past the end (`SeekPastTheLastCommand`, `SeekOutOfRange`, `Device.SeekTo`).
- scull/pipe.c: with a one-byte buffer nothing is ever readable or writable (`PollReportsSomething` states the exact
  bound); and opening a pipe that is open already takes a changed `scull_p_buffer` for its size without allocating again,
  so the pointers stay inside the block exactly when the parameter has not grown (`Pipe.Open`).
- scull/main.c: an exchange that cannot store the old value through its pointer returns an error but has set the new one, and
  a set that cannot read its value still changes the global (`Defaults.Ioctl`). Any value is taken, and emptying the device
  adopts it; a global of 0 makes the next write divide by 0, in scullp a read at position 0 as well (`ScullStore.Device.Trim` and
  `ScullpDevice.Device.Trim` state the exact bound).
- scullp: a read at the very end of the data can lengthen the list, because the size test is `>` where scull has `>=`
  (`ReadLengthens`, `ReadAppends`); list items after the first have order 0, so with a higher order a write outside the
  first item may not fit its block (`TooLong`, in the contract of `Device.Write`; `OverrunFresh`, `OverrunIffHigherOrder`);
  and `scullp_mmap` looks at the order and counts the mapping without the mutex, so a write-only open in between lets a
  device with bigger blocks be mapped (`TrimBetweenTheSteps`, `SinglePagesIffFresh`).
- scull/access.c: the single-open device can refuse an open although nobody has it open (`RefusedAlthoughFree`,
  `OpenSucceedsIff`).
- snull: `snull_release_buffer` reads `pkt->next` after unlocking, when the packet may have been sent again; it can then wake a
  queue without packets, and the next transmit returns with the lock held (`LateWakeUp`, `AlwaysSuppliedIff`). Only a pool of
  exactly one packet is safe from that in every run; the default is eight (`SafeIffOnePacket`). The opposite error does not
  occur: no queue is left stopped while there are packets (`StoppedQueueIsWoken`).

Where code and comments differ the code is followed: the comment on `shortp_out_lock` wants the lock held for decisions on
`shortp_output_active`, but interrupts, timeouts and releases look at it without the lock, and so does the model.

## Assumptions

- scull/pipe.c: the methods after `Pipe.Open` start from a pipe that fits its block, that is, from an open for which
  `scull_p_buffer` was at least 1 and had not grown. `scull_p_open` resets the pointers without waking anyone, so runs are
  those between two opens. Each evaluation of a condition loads each pointer once, in either order.
- shortprint: one writer at a time holds the mutex, as the code ensures; a page has at least two bytes, three for the results
  about waiting. Timers and interrupts only queue work; the printer's readiness is a step that may happen at any time.
- aesdchar and scull: allocations and user copies may fail at any call; how many bytes a copy manages is a parameter. A block of
  size 0 counts as a block. A copy from the caller that faults changes nothing past the bytes it managed, although Linux
  may also clear the rest of the target. What a failing `__get_user` leaves in its target is a parameter (0 in Linux). The
  result of `sscanf` in the server is a parameter.
- `AesdServerRuns` assumes that allocation, open and device I/O succeed and that nobody else uses the device.
- scull and scullp: a device is read and written with a positive quantum and qset, no product overflows an `int`, and each
  call runs atomically under the device's mutex. In scullp `scullp_follow` does not check its allocation; it is taken to succeed. Page numbers
  stand for addresses, and the page allocator hands out only pages that are not in use.
- `ScullpMaps`: the list changes by the functions that the methods of `ScullpDevice.Device` are proved to follow, with the
  number of a new block and the point where a write runs out of memory as parameters of the step; incrementing and
  decrementing `vmas` is one step each.
- snull: no transmit timeout, no simulated lockup, and devices are not closed while packets are under way.
- scull/access.c: a process's credentials do not change during one open.

## Model

| member | source | states |
|---|---|---|
| `PipeRing.FreeIs` | scull/pipe.c:186-191 | the bytes held and the result of `spacefree` always add up to one less than the buffer size, for every position of the two pointers |
| `PipeRing.ReadRefinesQueue` | scull/pipe.c:143-151 | a read removes exactly the oldest bytes it hands out, in order, and at least one if any are asked for |
| `PipeRing.WriteRefinesQueue` | scull/pipe.c:208-218 | a write appends a prefix of its data in place in both wrap cases, overwrites no unread byte and never makes a full ring look empty |
| `PipeRing.WrapKeepsContents` | scull/pipe.c:151-153 | the pointer may stand at `end` before it is wrapped; wrapping changes nothing that the ring holds |
| `PipeRing.TwoWritesFill` | scull/pipe.c:208-220 | splitting at the end of the buffer costs at most one extra call: two writes accept all there is room for |
| `PipeRing.TwoReadsDrain` | scull/pipe.c:143-153 | two reads deliver all that is asked for and there |
| `PipeRing.PollReportsSomething` | scull/pipe.c:243-251 | readable means not empty and writable not full, and poll reports one of them exactly when the buffer has at least two bytes |
| `ScullPipe.Pipe.Open` | scull/pipe.c:66-95 | every open, with any `scull_p_buffer`, empties the pipe and takes the parameter for its size; pipe and block fit if and only if it is at least 1 and not above what the block was made for; a failing allocation changes nothing |
| `ScullPipe.Pipe.Release` | scull/pipe.c:99-116 | the last close, and no other, gives the buffer back; the ring stays as it is |
| `ScullPipe.Pipe.FreeSpace` | scull/pipe.c:186-191 | the remainder expression is the exact number of bytes that can still be accepted |
| `ScullPipe.Pipe.Read` | scull/pipe.c:128-159 | the critical section waits exactly when the queue is empty; otherwise bytes returned followed by bytes left are the bytes held before; a fault changes nothing |
| `ScullPipe.Pipe.Write` | scull/pipe.c:199-221 | the critical section waits exactly when the queue is full; otherwise the accepted prefix is appended to the queue; a fault changes nothing |
| `ScullPipe.Pipe.Poll` | scull/pipe.c:233-252 | what poll reports in terms of the queue; never silent for two bytes or more |
| `PipeProtocol.RunKeepsInv` | scull/pipe.c:123-231 | the invariant holds after every interleaved sequence of steps from an opened pipe |
| `PipeProtocol.StepKeepsInv` | scull/pipe.c:128-224 | mutual exclusion, queue membership, sleep conditions and byte conservation survive every step of every process, with the unlocked pointer loads in either order |
| `PipeProtocol.NoLostWakeUp` | scull/pipe.c:131-157 | for every interleaving of any number of readers and writers: whoever sleeps although its condition holds is about to be woken by a process that has moved the other pointer |
| `PipeProtocol.OwedWakeUpIsDelivered` | scull/pipe.c:151-157 | a process that owes a wake-up delivers it in at most two steps of its own, and that empties the wait queue |
| `PipeProtocol.NeverBothAsleep` | scull/pipe.c:131-183 | for buffers of at least two bytes a reader and a writer sleep at the same time only while a wake-up is on its way |
| `PipeProtocol.FifoForEveryRun` | scull/pipe.c:142-221 | in every run bytes read followed by bytes held are the bytes accepted, and at most one less than the buffer size is held |
| `PipeProtocol.StuckOnlyWhenWaitingIsRight` | scull/pipe.c:131-183 | no deadlock: if no process can move, the mutex is free and only readers wait with the pipe empty, or only writers with it full |
| `PipeCalls.TestAnswersRightly` | scull/pipe.c:131-183 | in every run the test under the mutex sends a caller away if and only if the pipe is empty for a reader, full for a writer |
| `PipeCalls.CallEnds` | scull/pipe.c:123-231 | no call circles: whenever the mutex is free, a process that goes on alone is served within sixteen steps if there is something to move, with the ring as `Pipe.Read` and `Pipe.Write` leave it and the other queue woken, and otherwise is asleep on its queue; nothing else changes |
| `PipeCalls.FreshCallEnds` | scull/pipe.c:123-231 | the same for a call that begins |
| `PipeCalls.ServedMoves` | scull/pipe.c:142-221 | being served hands the reader a first part of the bytes held, or appends a first part of the writer's data, and not an empty one if any byte was asked for |
| `PipeCalls.MoveIsTheCalls` | scull/pipe.c:142-221 | in every interleaving the bytes moved by the holder of the mutex are those of its own call |
| `PipeCalls.FailureLeavesNothing` | scull/pipe.c:132-150 | O_NONBLOCK, signals and faults end a call exactly where the code checks for them, with nothing moved, the mutex given up and no place kept on a queue |
| `ShortPrint.SpaceFits` | shortprint/shortprint.c:119-126 | a positive result of the separate unlocked loads of `tail` fits between `head` and `tail`, however far the worker has moved `tail` meanwhile |
| `ShortPrint.FreeModIsRemainder` | shortprint/shortprint.c:346-346 | the branch form of the worker's condition is the remainder expression of the code |
| `ShortPrint.WakeGuardMeans` | shortprint/shortprint.c:345-348 | the wake condition holds exactly for a ring that is not empty and has more than half of its page free |
| `ShortPrint.StepKeepsInv` | shortprint/shortprint.c:271-400 | every step of writer, worker, interrupt or timeout keeps the byte, ownership and waiting invariants |
| `ShortPrint.UnlockedSpaceIsFree` | shortprint/shortprint.c:286-302 | in every run a chunk about to be copied ends inside the page and leaves one slot free: `head` never catches `tail` from behind |
| `ShortPrint.NothingLostOrReordered` | shortprint/shortprint.c:231-240 | in every run bytes strobed followed by bytes in the ring are the bytes accepted from writers, in order |
| `ShortPrint.OutputIsOwned` | shortprint/shortprint.c:162-168 | in every run a non-empty ring has active output or a writer about to activate it, so a release that sees neither has everything printed |
| `ShortPrintCalls.WriterConserves` | shortprint/shortprint.c:284-312 | each step of the writer keeps the bytes accepted followed by those of its call that are still to come |
| `ShortPrintCalls.CallersBytes` | shortprint/shortprint.c:271-320 | in every run without failures the bytes accepted and pending are the data of the calls begun, in order |
| `ShortPrintCalls.OneCallsBytes` | shortprint/shortprint.c:271-320 | a call's data is accepted up to some point whatever happens, and entirely if the call ends without a signal or fault |
| `ShortPrintCalls.HandedIsPrinted` | shortprint/shortprint.c:231-320 | for every run without failures the bytes printed, in the ring and still with the writer are the bytes handed over, in order |
| `ShortPrintCalls.CallEnds` | shortprint/shortprint.c:271-320 | a write left alone puts into the ring exactly the minimum of its data and the room, starts output if it was off, and then returns or is asleep on its queue with the rest |
| `ShortPrintCalls.WokenGoesOn` | shortprint/shortprint.c:286-304 | a woken writer goes on to copy if and only if there is room, and otherwise sleeps again |
| `ShortPrintCalls.FailureEndsTheCall` | shortprint/shortprint.c:290-302 | a signal ends a waiting call, a fault a copying one, and nothing else changes |
| `ShortPrintCalls.EverythingIsPrinted` | shortprint/shortprint.c:327-400 | while writers stand still the worker prints all the ring holds and switches output off, driven by interrupts alone or by timeouts alone |
| `ShortPrintCalls.InterruptsQueueWork` | shortprint/shortprint.c:355-400 | interrupts and timeouts move no byte and none of them is dropped: it leads to queued work |
| `ShortPrintCalls.QueuedWorkIsDone` | shortprint/shortprint.c:327-336 | queued work is taken off the queue only by the worker that starts on it |
| `ShortPrintStall.DoomedIffRingEmpty` | shortprint/shortprint.c:290-292 | exact condition: a writer asleep on the queue can be woken by nothing but a signal if and only if the ring is empty |
| `ShortPrintStall.NonEmptyRingWakes` | shortprint/shortprint.c:345-348 | while a byte is left, the worker's further steps do wake the sleeping writer |
| `ShortPrintStall.WakeUpCanBeLost` | shortprint/shortprint.c:286-293 | for every page size a run without failure or signal ends with the whole page free, output off and a writer asleep for ever |
| `AesdSpec.DeviceKeepsLastTen` | aesd-char-driver/main.c:97-179 | for every sequence of writes: the device's store is the last ten commands of the full history, no fewer if there are ten, every command ends a line, the partial never does, and history and partial joined are the bytes written |
| `AesdSpec.SeekRoundTrip` | aesd-char-driver/main.c:265-291 | an existing command can be sought to exactly at offsets inside it, and the position reached belongs to that command and offset only |
| `AesdSpec.SeekOutOfRange` | aesd-char-driver/main.c:279-289 | exact condition: after any writes, seeking to a command number that does not exist is accepted if and only if ten commands have ever been finished and the offset is inside the newest one |
| `AesdSpec.SeekPastTheLastCommand` | aesd-char-driver/main.c:265-291 | after ten writes of one newline each, seeking to command 10 is accepted and leads past the end |
| `AesdSpec.PositionIsUnique` | aesd-char-driver/aesd-circular-buffer.c:53-66 | no position lies in two commands |
| `AesdSpec.SuffixFrom` | aesd-char-driver/main.c:291-291 | what follows a sought position is the rest of that command and all later ones |
| `AesdBuffer.CircularBuffer.AddEntry` | aesd-char-driver/aesd-circular-buffer.c:78-105 | the ring in age order loses its oldest entry when full and gains the new one; the pointer returned is that of the entry that left, NULL if none did |
| `AesdBuffer.CircularBuffer.FindEntry` | aesd-char-driver/aesd-circular-buffer.c:29-69 | finds the slot and offset of a position in the entries joined in age order, and finds none exactly past the end |
| `AesdBuffer.CircularBuffer.constructor` | aesd-char-driver/aesd-circular-buffer.c:110-113 | an initialised ring is empty |
| `AesdDevice.Device.Gather` | aesd-char-driver/main.c:60-90 | the copy loop delivers exactly the window of the joined commands asked for, across slots and the wrap of the ring, and terminates; a failing copy delivers a prefix of it |
| `AesdDevice.Device.Read` | aesd-char-driver/main.c:51-95 | `aesd_read` returns that window and advances the position by its length; after a fault the position keeps what it advanced |
| `AesdDevice.Device.Write` | aesd-char-driver/main.c:97-185 | a write succeeds with the store changed as specified, or fails with ENOMEM or EFAULT, which takes a failing allocation or copy, and changes neither store, memory nor position |
| `AesdDevice.Device.FinishCommand` | aesd-char-driver/main.c:159-178 | a finished line becomes the newest command, the evicted block alone is freed, and every live block is owned by one slot |
| `AesdDevice.Device.PhysicalTotal` | aesd-char-driver/main.c:197-204 | adding up the slots in physical order gives the length in age order, because unused slots are clear |
| `AesdDevice.Device.Llseek` | aesd-char-driver/main.c:187-239 | targets are clamped to the length of the joined commands, negative ones and unknown origins refused |
| `AesdSpec.LseekLimits` | aesd-char-driver/main.c:206-236 | going back is refused exactly beyond the beginning, going on stops at the end, for each origin |
| `AesdDevice.Device.LastBytes` | aesd-char-driver/main.c:187-239 | seeking k bytes back from the end and reading k gives the last k bytes |
| `AesdDevice.Device.BytesAt` | aesd-char-driver/main.c:187-239 | seeking to p and reading gives the bytes from p on, none past the end |
| `AesdDevice.Device.MoveTwice` | aesd-char-driver/main.c:187-239 | relative moves inside the data add up, and a move by 0 tells the position |
| `AesdDevice.Device.WalkTo` | aesd-char-driver/main.c:265-277 | the loop stops at the command asked for with the bytes before it, or falls through on the last slot with all bytes counted |
| `AesdDevice.Device.SeekTo` | aesd-char-driver/main.c:258-295 | the ioctl seeks to the specified target or returns an error and leaves the position alone; refused exactly for offsets not inside the entry asked for or, if there is none, unless the ring is full and the offset inside the entry before `in_offs` |
| `AesdDevice.Device.SeekAndFind` | aesd-char-driver/main.c:258-295 | after a seek inside a stored command the lookup that a read starts with finds that command's slot and the offset asked for |
| `AesdDevice.Device.SlotsDistinct` | aesd-char-driver/main.c:153-178 | no block is in two slots, or in a slot and the partial buffer |
| `AesdDevice.Device.Cleanup` | aesd-char-driver/main.c:361-378 | after cleanup every block ever allocated has been freed, each exactly once |
| `AesdServer.Receive` | meta-aesd/recipes-aesd-assignments/aesd-assignments/files/server/aesdsocket.c:103-131 | the receive loop yields the specified message, dropping chunks that do not fit |
| `AesdServer.MessageIsCommand` | meta-aesd/recipes-aesd-assignments/aesd-assignments/files/server/aesdsocket.c:105-131 | a message is empty or at most 2048 bytes long and newline-terminated |
| `AesdServer.ReceivedWhole` | meta-aesd/recipes-aesd-assignments/aesd-assignments/files/server/aesdsocket.c:105-117 | nothing is dropped while the total stays below the buffer size |
| `AesdServer.MessageIsWhole` | meta-aesd/recipes-aesd-assignments/aesd-assignments/files/server/aesdsocket.c:103-131 | below 2048 bytes the message is exactly what the peer sent, with one newline after it unless it is empty or ends in one |
| `AesdServer.ReceivedNext` | meta-aesd/recipes-aesd-assignments/aesd-assignments/files/server/aesdsocket.c:105-117 | a chunk is kept if and only if it fits after those kept so far, whatever was dropped before |
| `AesdServer.ReceivedOnlyLine` | meta-aesd/recipes-aesd-assignments/aesd-assignments/files/server/aesdsocket.c:118-121 | nothing after the first chunk with a newline belongs to the message |
| `AesdServer.SeeksAreSpelt` | meta-aesd/recipes-aesd-assignments/aesd-assignments/files/server/aesdsocket.c:146-147 | the seeking messages are those that begin with AESDCHAR_IOCSEEKTO: |
| `AesdServer.SendRest` | meta-aesd/recipes-aesd-assignments/aesd-assignments/files/server/aesdsocket.c:215-238 | the read-back loop sends everything from the file position to the end of the data |
| `AesdServer.WriteAll` | meta-aesd/recipes-aesd-assignments/aesd-assignments/files/server/aesdsocket.c:175-191 | the write loop stores the whole message or nothing, and stores it whenever no allocation fails |
| `AesdServer.Serve` | meta-aesd/recipes-aesd-assignments/aesd-assignments/files/server/aesdsocket.c:133-242 | one client's section under the mutex: a seek changes nothing and replies with the suffix from its target, anything else is stored whole, unless an allocation fails, and replied to with the whole store |
| `AesdServerRuns.StepKeepsInv` | meta-aesd/recipes-aesd-assignments/aesd-assignments/files/server/aesdsocket.c:103-242 | whatever client threads do, the store is the last ten messages in mutex order and every reply under way is a window of it |
| `AesdServerRuns.MessagesComeFromTheirClients` | meta-aesd/recipes-aesd-assignments/aesd-assignments/files/server/aesdsocket.c:103-131 | in every run a client's message is made of the chunks it was sent, up to its newline or hang-up, and of nobody else's |
| `AesdServerRuns.ClientIsServed` | meta-aesd/recipes-aesd-assignments/aesd-assignments/files/server/aesdsocket.c:133-242 | whenever the mutex is free, a client whose message is complete can be served to the end, with the effect and the reply of `Serve`, and gives the mutex back |
| `AesdServerRuns.RepliesLinearise` | meta-aesd/recipes-aesd-assignments/aesd-assignments/files/server/aesdsocket.c:133-242 | for every interleaving: a client that stored m gets exactly the last at most ten messages in mutex order, ending with m |
| `AesdServerRuns.SeekRepliesWithSuffix` | meta-aesd/recipes-aesd-assignments/aesd-assignments/files/server/aesdsocket.c:146-169 | for every interleaving: an in-range seek gets exactly the suffix from that command and offset and is not stored; a refused or unreadable one gets everything; one for a missing command gets nothing exactly when ten commands are kept and the offset fits the newest |
| `AesdServerRuns.RealTimeOrder` | meta-aesd/recipes-aesd-assignments/aesd-assignments/files/server/aesdsocket.c:133-242 | a client that takes the mutex after another has finished is later in the order |
| `ScullGeometry.PlaceIsRight` | scull/main.c:314-316 | item, slot and offset are in range and determine the position |
| `ScullGeometry.PlaceIsUnique` | scull/main.c:314-316 | every place in range is the place of its position, so the decomposition is a bijection |
| `ScullGeometry.SameQuantum` | scull/main.c:314-316 | two positions share a quantum exactly when item and slot agree |
| `ScullGeometry.OneCallLess` | scull/main.c:323-332 | a call that stops at the end of the data or the quantum leaves one quantum less to go |
| `ScullGeometry.TouchedIsCeiling` | scull/main.c:372-379 | the number of quanta a transfer touches, rounded up in closed form |
| `ScullImage.OverlayStores` | scull/main.c:355-379 | writing into one quantum, new or old, changes exactly the positions written; other bytes appear only in a new quantum |
| `ScullImage.StoresRemembers` | scull/main.c:372-385 | every byte ever written stays what was last written there |
| `ScullImage.ReadsAreLastWritten` | scull/main.c:327-332 | a read delivers the bytes last written since the device was emptied |
| `ScullImage.FoundIsRight` | scull/main.c:307-332 | looking at the place of a position is a right read: clipped to size and quantum, empty at holes and past the end |
| `ScullStore.Device.Follow` | scull/main.c:265-289 | walks to item n, appending items only while the list is too short; a list that is long enough is left untouched |
| `ScullStore.Device.ListReachesData` | scull/main.c:307-318 | whatever has been written, the list already reaches the last byte |
| `ScullStore.Device.Read` | scull/main.c:295-337 | returns the bytes last written up to the end of the data and of the quantum, nothing in holes, and never changes the device |
| `ScullStore.Device.Write` | scull/main.c:339-390 | stores the bytes up to the end of the quantum, or those before a fault; ENOMEM leaves all bytes alone; every live block stays in the list exactly once |
| `ScullStore.Device.Reach` | scull/main.c:355-370 | allocates what is missing on the way to a quantum and changes no stored byte |
| `ScullStore.Device.Trim` | scull/main.c:63-84 | every item, pointer array and quantum is freed exactly once, and only then does the device take the global geometry, whatever it is; the device is fit for use afterwards if and only if neither global is 0 |
| `ScullStore.Defaults.Ioctl` | scull/main.c:395-496 | the geometry commands change the globals and nothing else, with pointer check, capability and user copies that may fail: which error, what is stored through the pointer, and what the globals are, also after a set that cannot read or an exchange that cannot write |
| `ScullTransfer.TellAndAsk` | scull/main.c:431-446 | what is told is what a query answers and a get stores, and the other global stays |
| `ScullTransfer.ExchangeAndShiftBack` | scull/main.c:448-464 | exchange and shift undo each other, each handing out the other value |
| `ScullTransfer.SetAndReset` | scull/main.c:420-429 | set by pointer sets, and reset restores 4000 and 1000 |
| `ScullTransfer.StoreAll` | scull/main.c:372-385 | repeated writes store all of a buffer, change no other byte that was there, and take one call for each quantum touched |
| `ScullTransfer.LoadAll` | scull/main.c:323-332 | repeated reads return all of it in as many calls |
| `ScullTransfer.RoundTrip` | scull/main.c:323-385 | what is written comes back, with the number of calls in each direction in closed form |
| `ScullTransfer.GeometryChange` | scull/main.c:423-496 | changing the globals in any way, also to 0, does not disturb stored data; emptying the device adopts them with nothing of the old geometry left allocated |
| `ScullGeometry.PlaceByQuanta` | scullp/mmap.c:82-88 | counting pages first and then items gives the same place as the read path's division |
| `ScullGeometry.SubtractionsDivide` | scullp/mmap.c:83-86 | repeated subtraction ends with quotient and remainder |
| `ScullpDevice.Device.Follow` | scullp/main.c:147-158 | appends empty items while the list is too short |
| `ScullpDevice.BlockSizesMultiply` | scullp/main.c:170-172 | block sizes are the page size times a power of two |
| `ScullpDevice.Device.Read` | scullp/main.c:164-208 | does to the list what `AfterRead` says and returns the bytes found in the block at the position's place, which for single pages is a right read; a position past the size returns 0; the copy does not fit the block only under Overrun |
| `ScullpDevice.Device.ReadLengthens` | scullp/main.c:176-189 | exact condition: a read lengthens the list if and only if it starts at the very end of data that fills the list |
| `ScullpDevice.ReadAppends` | scullp/main.c:176-189 | for every geometry a device, freshly made and written to once, whose list such a read lengthens |
| `ScullpDevice.Device.Write` | scullp/main.c:212-265 | does to the list what `AfterWrite` says, lays the data over one block, old or zeroed and new, and leaves every other block alone, for every order; for single pages a right write with zeroes beside it; a write does not fit its block exactly under TooLong |
| `ScullpDevice.OverrunIffHigherOrder` | scullp/main.c:147-251 | exact condition: a device has positions and counts at which a write does not fit its block if and only if its order is not 0 |
| `ScullpDevice.OverrunFresh` | scullp/main.c:147-251 | for every order above 0 and every qset a fresh device on which one write of a quantum does not fit |
| `ScullpDevice.Device.Trim` | scullp/main.c:414-442 | refused while mapped with nothing changed; otherwise every block is freed exactly once and the globals are adopted, whatever they are; the device is fit for use afterwards if and only if qset is not 0 |
| `ScullpDevice.Device.NoPage` | scullp/mmap.c:71-92 | the fault handler's walk finds the block at item and slot of the offset's page number, which is live, and none past the end or in a hole |
| `ScullpDevice.Device.FaultAgreesWithRead` | scullp/mmap.c:71-92 | for order 0 the page found is the one read copies from, byte for byte, and is missing exactly past the end and in holes |
| `ScullpDevice.Device.Mmap` | scullp/mmap.c:108-121 | refused for higher orders, otherwise counted; nothing else of the list changes |
| `ScullpMaps.InitIsPinned` | scullp/mmap.c:33-45 | a device that nobody has mapped or written to meets the invariant of the runs |
| `ScullpMaps.MappingsPinTheStore` | scullp/mmap.c:33-45 | in every run of the device's calls a live mapping's geometry is the device's and every page handed out through it is still in the slot of its page number |
| `ScullpMaps.MappedDeviceKeepsItsPages` | scullp/main.c:414-420 | from counting to unmapping no call changes the geometry, takes a block out of its slot or leads a fault at an offset to another page |
| `ScullpMaps.WrittenPageIsMapped` | scullp/mmap.c:71-121 | a device of single pages can be mapped, and a fault at an offset that has been written maps the block the write filled |
| `ScullpMaps.ForkHoldsOn` | scullp/mmap.c:33-45 | a mapping copied by fork keeps the device as it is when the original is unmapped |
| `ScullpMaps.UnmappedIsEmptied` | scullp/main.c:414-442 | once every mapping is closed a write-only open empties the device, which takes the globals set by then; before that it changes nothing |
| `ScullpMaps.RunReadAppends` | scullp/main.c:176-189 | the lengthening read occurs in runs as well |
| `ScullpMaps.SinglePagesIffFresh` | scullp/mmap.c:108-121 | exact condition: mapped devices keep single pages through a run if and only if no mapping is counted after the order it looked at has changed |
| `ScullpMaps.AtomicMmapIsFresh` | scullp/mmap.c:112-119 | the guarantee holds when check and count follow each other directly |
| `ScullpMaps.TrimBetweenTheSteps` | scullp/mmap.c:112-119 | for every order and qset a run in which a write-only open between check and count leads to a mapped device of that order |
| `SingleOpen.AtMostOneOpen` | scull/access.c:55-75 | for every interleaving at most one process has the device open and the counter is 1 less openers less refusals not yet undone |
| `SingleOpen.OpenSucceedsIff` | scull/access.c:59-62 | exact condition: an attempt succeeds if and only if there is no opener and no refusal waiting to be undone |
| `SingleOpen.RefusedAlthoughFree` | scull/access.c:59-62 | a run in which an attempt is refused although nobody has the device open |
| `SingleOpen.CanBeFreed` | scull/access.c:59-78 | in every run, once refusals are undone and the opener has closed, everything is as at the beginning and the next attempt succeeds |
| `BlockingOpen.StepKeepsInv` | scull/access.c:165-210 | lock, counter, owner and wait-queue invariants survive every step, with the unlocked evaluation as separate loads |
| `BlockingOpen.NoLostWakeUp` | scull/access.c:174-210 | for every interleaving: whoever sleeps although the device is available to it is about to be woken |
| `BlockingOpen.OneUserInside` | scull/access.c:186-189 | for every interleaving the counter is the number of openers, and all of them are entitled to the one owner's device |
| `BlockingOpen.StuckOnlyWhenInUse` | scull/access.c:179-185 | if no process can move by itself, every sleeper waits for a device that somebody else has open |
| `BlockingOpen.TestAnswersRightly` | scull/access.c:165-180 | in every run the test under the lock lets a process in if and only if nobody is inside, or it has the owner's uid as uid or euid, or it overrides permissions |
| `BlockingCalls.OpenEnds` | scull/access.c:174-196 | no open circles: whenever the lock is free, a process that goes on alone is inside within fourteen steps if it may enter, as the owner if nobody was inside, and otherwise is asleep on the queue |
| `BlockingCalls.FreshOpenEnds` | scull/access.c:174-196 | the same for an open that begins |
| `BlockingCalls.CloseEnds` | scull/access.c:199-210 | a close takes the process out, and the last one out wakes everybody |
| `BlockingCalls.FailureLeavesNothing` | scull/access.c:181-183 | O_NONBLOCK and signals end an open exactly where the code checks for them and leave no place on the queue |
| `SnullPool.SetupIsConserved` | snull/snull.c:99-116 | after setup every packet is in its own pool, once, and the next pointers spell the pools |
| `SnullPool.StepKeepsConserved` | snull/snull.c:133-191 | each critical section moves one packet and duplicates or loses none, and following the next pointers from each head still gives exactly the list, so that popping by `pkt->next` takes off one packet |
| `SnullPool.PacketsAreConserved` | snull/snull.c:133-191 | for every interleaving the packets of setup stay split between their pool, the twin's receive list and one process each, and the next pointers spell all four lists |
| `SnullPool.StoppedQueueIsWoken` | snull/snull.c:155-166 | no queue is left stopped: in every run from setup, while it is stopped although its pool is not empty, a process that has pushed the last packet of the pool is about to look, and its look starts the queue |
| `SnullPool.AlwaysSuppliedIff` | snull/snull.c:133-166 | exact condition: along every run a running queue has packets at each step, and the device does not hang, if and only if no release wakes a pool emptied since its push |
| `SnullPool.PromptReleaseNeverHangs` | snull/snull.c:155-166 | if each release looks at the queue directly after its push, that never happens in any run |
| `SnullPool.LateWakeUp` | snull/snull.c:155-166 | from setup with any two or more packets a run of three processes that wakes an empty pool and hangs the device |
| `SnullPool.SafeIffOnePacket` | snull/snull.c:99-166 | exact condition: from setup no run empties the pool of a running queue, and none hangs the device, if and only if its pool was set up with exactly one packet |

## Left out

- ScullPipe.Pipe.Open: an open while others have the pipe open empties it; that is stated for the single call and kept out of the runs of `PipeProtocol`.
- ScullpDevice.Device.Read: does not say what a copy that runs over the end of its block leaves behind; the model stops there with Overrun, and so does ScullpDevice.Device.Write.
- AesdServer.WriteAll: does not tell which allocation failed; a failure leaves the device as it was.
- The decoding of scull_ioctl's command numbers, and its two commands for `scull_p_buffer`: an assignment and a query.
- scull_llseek and scullp_llseek: plain assignments to the position.
- The per-terminal private devices of scull/access.c: a lookup that adds a missing key in front of a list.
- scull_u_open: the same test as the blocking open, returning -EBUSY where that one waits.
- The trim that the devices of scull/access.c perform after a write-only open, without the device's mutex.
- The server's thread list, its timer thread, signals and sockets: accept and join bookkeeping. Sending is taken to deliver what is read.
- shortprint's read side and its parallel-port output: timing text that is allowed to overrun, and port I/O.
- snull's IP header rewriting, statistics, NAPI scheduling and receive-interrupt flag: they do not move packets.
- The asynchronous notification and the /proc output of the drivers, module initialisation and the device registration.
- scullc, sculld and scullv: copies of scullp with other allocators.
- The remaining drivers and programs of the repository: thin wrappers over kernel services or hardware.
