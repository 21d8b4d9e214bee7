# Drivers under proof

A Dafny model of the drivers of this repository that hold real data structures or run a
concurrent protocol, with proofs of what they keep over every run.

* `SparseFile.dfy`, `Scullc.dfy`, `ScullcRuns.dfy`, `ScullcAsync.dfy`, `ScullcLock.dfy`: the
  scullc device. `Scullc.ScullcDev` is the linked list of quantum sets as the driver builds it
  in the heap; `SparseFile` is the byte file with holes it stands for. `ScullcRuns` ties them
  over any run of reads, writes, seeks and trims, with any interrupted locks, failed
  allocations and faults: same answers, same file, and the file agrees with the log of writes.
  `ScullcAsync` is the deferred completion of requests, `ScullcLock` the interleaving of calls
  at the lock.
* `UsbSkeleton.dfy`, `UsbInvariant.dfy`, `UsbSafety.dfy`, `UsbLoss.dfy`, `UsbCalls.dfy`: the USB
  skeleton driver as a state machine of atomic steps of any number of readers, writers,
  completions, flushes, resets, opens, releases and one disconnect; its invariants; what they
  mean for users and bus; which errors nobody hears of; and what one call does for its caller.
* `TaskletCatchup.dfy`, `ThreadCatchup.dfy`, `WorkItems.dfy`, `SharedItem.dfy`: top halves and
  bottom halves of interrupts, at the grain of single atomic operations.
* `Mouse.dfy`, `UserMap.dfy`, `SillyIo.dfy`, `BlockQueue.dfy`, `TxRing.dfy`: the serial mouse
  framer, the page-wise copy, the width-degraded I/O read, the block request routine and the
  UART transmit ring.
* `Common.dfy`, `Arith.dfy`, `Bits.dfy`, `Runs.dfy`: bytes and error numbers, division,
  bitwise operations on unsigned values, runs of a state machine.

Drivers that change one object step by step are classes, or methods on arrays, proved against
a function of the old state; drivers whose difficulty is interleaving are state machines whose
step is one atomic operation, and their theorems are about every reachable state.

## Where the code does not do what it is meant to

The model follows the code, and says exactly how far the intended property reaches.

* The aio branch of scullc tests the pointer returned by `memcpy` as a fault
  (`io/lab6_aio.c:199`, `io/lab6_aio.c:263`), and only the aio entry points are registered
  (`io/lab6_aio.c:507-517`). So every write through them is answered with an error and the
  size never moves (`MemcpyNeverSucceeds`, `NothingEverSucceeds`), although the bytes are
  stored. Everything else about scullc is proved for both kinds of copy.
* A USB read tests and clears `errors` without `err_lock` (`usb/usb-skeleton.c:268-271`). The
  model takes the two as separate steps. One recorded error can then be reported twice
  (`DoubleReport`), and `ReportedOnceIffNoRace` says that this happens exactly in runs with
  the racing step: a write tests `errors` under the lock while a read has loaded that record
  and not yet cleared it.
* The clear can also erase a newer record than the one the read reports, and a newer record
  overwrites one that waits. `LostIffDropped` says exactly which records nobody ever reports.
* A scullc read or write takes the geometry before it takes the lock (`io/lab6_aio.c:171-177`,
  `io/lab6_aio.c:231-237`), so a trim in between leaves it with an old set size. Run by run, the
  structure survives exactly if no call hangs up an array of the old length or indexes past an
  array (`SoundIffNoHarm`, with the run `TrimInBetween` that breaks it); writes at every position
  are safe exactly if the set size is current.
* The ioctls accept any set size, and a trim adopts it. With 0 a write, or a read not past the
  end, divides by zero; with a negative size either walks a negative number of list items from
  position quantum * -qset on, and before that is answered, a write with -ENOMEM. `FateIff` is
  the exact condition for a call, `ServedIffAllReturn` for a run; `TrimThenWrite` shows both
  failures.
* The reset of the mouse position stores xpos and then ypos with interrupts on
  (`hardware/lab4_serial.c:126-127`). A packet completed between the stores is counted in xpos
  and not in ypos; both are over the same packets exactly if there is none (`Driver.Zero`,
  `TornReset`).
* `request_irq` comes before the counter is set to 0 (`interrupts/lab_all_interrupt.h:70-81`):
  interrupts counted in between are wiped out. With an item for each interrupt the counters
  agree exactly if there were none (`WipedOut` shows one); with the shared item the bottom
  halves can even outnumber the interrupts (`MoreBottomHalves`, `TotalsBalance`).
* The page copy looks neither at the offset of the user's buffer in its first page nor at the
  size of the ramdisk (`io/lab2_usermap.c:41-79`). `LandsIffAligned` and `InsideIffShort` say
  what its callers have to see to.
* The thread version of the catch-up loop leaves an event behind when it comes before `cond`
  is cleared (`interrupts/lab5_one_thread_improved.c:54-57`); `KeepsUpIff` says when.
* The test for a negative count in the I/O read is on an unsigned value
  (`hardware/lab5_silly.c:85`) and is never true; `RangeInWindow` gives the exact positions
  and counts for which the range is right. What stops positions past the window is that the
  count is then beyond anything kmalloc grants (`GrantedIsInside`).
* The block driver computes the byte offset in 32 bits (`block/lab2_block.c:99`);
  `AcceptedIff` says exactly which segments past the end the routine would let through. The
  block layer delivers none of those, since the driver announces its capacity
  (`block/lab2_block.c:195`), and inside that nothing wraps (`InsideCapacity`). Segments refused
  or skipped are ended as successful (`block/lab2_block.c:84`, `block/lab2_block.c:117`).

## What is assumed of the surroundings

* scullc: in `Scullc` the calls on one device come one after the other, geometry included; the
  quantum is positive and keeps the value it had when the object cache was made
  (`io/lab6_aio.c:602`); the unchecked allocation of list items (`io/lab6_aio.c:153-154`)
  succeeds. The outcome of the lock, of the other allocations and of each user copy is a
  parameter of the call.
* USB: each successful submission gets exactly one callback; a kill returns only after it; a
  draw-down that times out kills what is left; an open does not interleave with
  `usb_deregister_dev`; a file is released, and so its last reference dropped, after its calls
  have returned.
* Mouse: the interrupt handler runs as one step with respect to the stores of the reset.
* Interrupts: the kernel runs a tasklet or work item once for each time it found it pending,
  and never beside itself; the GFP_ATOMIC allocations succeed, as the handlers assume.

## Model

| member | source | states |
|---|---|---|
| SparseFile.IndexBijection | io/lab6_aio.c:183-186 | list item, slot and offset, each in range, name exactly one position, and each position one triple |
| SparseFile.IndexInRange | io/lab6_aio.c:240-243 | the triple computed from any position is in range, and its last two levels collapse to position / quantum and position % quantum |
| SparseFile.WriteView | io/lab6_aio.c:246-279 | a write call changes exactly the bytes [f_pos, f_pos + moved) of the view, to the caller's bytes, on success and on faults alike |
| SparseFile.MovedIs | io/lab6_aio.c:246-272 | how many bytes move: none without storage, else as many as land, up to the buffer and the rest of the quantum |
| SparseFile.WriteExtent | io/lab6_aio.c:254-279 | only the target quantum can be added to the allocated set; size becomes max(size, f_pos + ret) on success and stays on failure; the position moves by what is returned |
| SparseFile.WriteSucceedsIff | io/lab6_aio.c:246-283 | a write returns a count exactly when its quantum exists or can be allocated and the user copy moves everything |
| SparseFile.WriteErrors | io/lab6_aio.c:235-266 | a write fails with -ENOMEM exactly without storage for its quantum, and otherwise with -EFAULT |
| SparseFile.ReadReturnsView | io/lab6_aio.c:179-212 | a read leaves the file alone and returns min(count, size - f_pos, quantum - q_pos) bytes of the view, or 0 past the end or at a hole; or, exactly when there are such bytes to copy and the copy falls short, -EFAULT with the position kept and the bytes that landed |
| SparseFile.MemcpyNeverSucceeds | io/lab6_aio.c:198-202 | with the aio copy no write returns a count or moves the size, and a read returns 0 exactly past the end or at a hole and an error otherwise |
| SparseFile.SeekTells | io/lab6_aio.c:404-410 | a relative seek by 0 returns the position and one from the end the size |
| SparseFile.SeekIsAbsolute | io/lab6_aio.c:399-410 | a seek by off from the position, or from the end, is a seek to the sum, and a seek to off returns off |
| SparseFile.SeeksCompose | io/lab6_aio.c:404-406 | accepted relative seeks add up |
| SparseFile.SeekRefusedIff | io/lab6_aio.c:399-417 | a seek is refused, with -EINVAL, exactly to before the start or with a whence that is none of the three |
| SparseFile.StepMoves | io/lab6_aio.c:394-418 | a call moves no position but its own file's, by what it returns, and a refused seek moves none; seeks and reads leave the file alone |
| SparseFile.AppendGrows | io/lab6_aio.c:273-277 | after a seek to the end a write that returns n makes the device longer by n |
| SparseFile.RunAgrees | io/lab6_aio.c:166-284 | after any run of seeks, reads, writes (failed ones too) and trims by any number of files, the view is what the last write to each byte stored, the size the farthest successful end, and the allocated quanta exactly those written to since the last trim |
| SparseFile.WriteAllCalls | io/lab6_aio.c:260-279 | a client that retries on short counts writes any non-empty buffer in exactly one call for each quantum the range touches |
| SparseFile.WriteAllView | io/lab6_aio.c:260-279 | such a client changes exactly its range of the view, to its buffer |
| SparseFile.WriteAllExtent | io/lab6_aio.c:273-277 | it only adds quanta, and the size becomes the maximum of the old size and the end of the range |
| SparseFile.WriteAllStores | io/lab6_aio.c:253-259 | afterwards every quantum of the range is allocated |
| SparseFile.ReadAllView | io/lab6_aio.c:179-212 | a read loop over a stored range inside the size returns exactly the bytes stored |
| SparseFile.WriteThenRead | io/lab6_aio.c:166-284 | what a retrying client writes, a read loop from the same position returns |
| Scullc.ScullcDev.OneWay | io/scullc.h:55-64 | followed through the real pointers (next any number of times, then data, then a slot), two different ways from the head never lead to the same object, and the objects they lead to are exactly the live allocations |
| Scullc.ScullcDev.Acyclic | io/lab6_aio.c:149-160 | no two numbers of next steps lead to the same item, and the chain ends |
| Scullc.ScullcDev.constructor | io/lab6_aio.c:595-598 | a device starts as an empty file on a lone head with the module's geometry, whatever the set size |
| Scullc.ScullcDev.Append | io/lab6_aio.c:152-155 | a new item goes on the end of the list and no stored byte changes |
| Scullc.ScullcDev.Follow | io/lab6_aio.c:149-160 | returns item n, growing the list to max(length, n + 1) items by empty ones, with every old item, array and quantum in place |
| Scullc.ScullcDev.AddSet | io/lab6_aio.c:247-252 | an item gets an array of qset null pointers and the file does not change |
| Scullc.ScullcDev.AddBlock | io/lab6_aio.c:254-259 | a null slot gets a zeroed quantum, which becomes the right numbered quantum of the file |
| Scullc.ScullcDev.Deposit | io/lab6_aio.c:260-272 | copying into a quantum changes those bytes of that numbered quantum of the file and no others |
| Scullc.ScullcDev.Reach | io/lab6_aio.c:245-259 | finds or allocates the target quantum, and says exactly when it cannot |
| Scullc.ScullcDev.WriteAt | io/lab6_aio.c:245-272 | the walk, the allocations and the copy do to the file what the abstract write does before the size is updated |
| Scullc.ScullcDev.Split | io/lab6_aio.c:240-243 | the driver's two-level division computes position / quantum and position % quantum |
| Scullc.ScullcDev.DoWrite | io/lab6_aio.c:226-284 | on the linked structure a write call has the file, return value and position of the abstract write, for every outcome of lock, allocations and copy, and keeps the structure |
| Scullc.ScullcDev.Peek | io/lab6_aio.c:188-194 | the walk of a read finds the quantum exactly if the file has it, and appending items on the way changes no byte |
| Scullc.ScullcDev.ReadAt | io/lab6_aio.c:188-217 | from the walk on, a read is the abstract read of its quantum |
| Scullc.ScullcDev.DoRead | io/lab6_aio.c:166-217 | a read call returns what the abstract read returns, leaves the file unchanged even when the walk appends items, and keeps the structure |
| Scullc.ScullcDev.LockedRead | io/lab6_aio.c:179-217 | once it has the lock, a read is the abstract read of its position, and the file does not change |
| Scullc.ScullcDev.FreeAll | io/lab6_aio.c:528-539 | the trim loop leaves no allocation but the head, having freed each exactly once |
| Scullc.ScullcDev.FreeItem | io/lab6_aio.c:529-538 | one round of the trim loop frees what hangs on an item, and the item unless it is the head, each while it is live |
| Scullc.ScullcDev.Trim | io/lab6_aio.c:519-545 | without mappings trim frees every allocation but the head exactly once, walking arrays of the old qset, and only then adopts the new geometry, of whatever set size; with mappings it returns -EBUSY and changes nothing |
| ScullcRuns.NegativeItem | io/lab6_aio.c:183-186 | with a negative set size C's division gives item 0 and the position itself as the rest exactly below quantum * -qset, and a negative item from there on |
| ScullcRuns.FateIff | io/lab6_aio.c:166-252 | a call that has the lock returns exactly with a positive set size, or as a read past the end, or with a negative set size at a position below quantum * -qset; it divides by zero exactly with set size 0 and otherwise walks a negative number of items |
| ScullcRuns.NegativeArray | io/lab6_aio.c:247-250 | an array of a negative number of pointers is asked for as more than kmalloc grants |
| ScullcRuns.ServedIffAllReturn | io/lab6_aio.c:166-284 | a run is served to its end, with an answer to each call, exactly if each call meets that condition when its turn comes |
| ScullcRuns.RunAgreesWithLog | io/lab6_aio.c:166-284 | wherever a run stops, file, size and allocated quanta agree with the log of its writes since the last trim |
| ScullcRuns.TrimThenWrite | io/lab6_aio.c:229-246 | a trim to set size 0 and a write divide by zero; a trim to -1 and a write one quantum in walk a negative number of items |
| ScullcRuns.TrimThenRead | io/lab6_aio.c:179-180 | after a trim to set size 0 a read past the end is still answered, with 0 |
| ScullcRuns.Appending | io/lab6_aio.c:408-410 | in a run, a file that seeks to the end is told the size, and makes the device longer by exactly what its next write answers |
| ScullcRuns.Telling | io/lab6_aio.c:404-406 | in a run, a relative seek by 0 answers the file's position and moves nothing |
| ScullcRuns.Reading | io/lab6_aio.c:166-217 | a read on a device of any geometry has that fate, and if it returns is the abstract read |
| ScullcRuns.Writing | io/lab6_aio.c:226-284 | a write on a device of any geometry has that fate, and if it returns is the abstract write, granted storage exactly with a positive set size, a quantum, and an array that is there or can be had |
| ScullcRuns.Perform | io/lab6_aio.c:394-418 | one call through a file position, seeks with their -EINVAL cases included, has the fate, answer and effect of the model's call |
| ScullcRuns.Replay | io/lab6_aio.c:149-284 | any run of calls on the linked structure goes as far as the model's, gives the same answers and data, and leaves the same file, positions and arrays, whatever locks, allocations and copies fail and whatever set sizes its trims adopt; to the end exactly if every call returns |
| ScullcLock.WriteKeepsIff | io/lab6_aio.c:231-279 | a write with a set size taken before the lock keeps the structure exactly if it neither hangs up an array of another length nor indexes past one |
| ScullcLock.ReadKeepsIff | io/lab6_aio.c:171-196 | a read does exactly if it does not index past an array |
| ScullcLock.HarmlessIffCurrent | io/lab6_aio.c:231-243 | writes at every position are harmless exactly if the set size taken is still the device's |
| ScullcLock.StaleLandsIff | io/lab6_aio.c:240-243 | a write with another set size goes to the quantum of its position exactly if it goes to the first list item |
| ScullcLock.FreshWrite | io/lab6_aio.c:237-279 | with the set size still current a write is the abstract file's, in file and return value |
| ScullcLock.FreshRead | io/lab6_aio.c:177-196 | and a read finds the quantum exactly if the file has it |
| ScullcLock.SoundIffNoHarm | io/lab6_aio.c:120-284 | over any interleaving of calls and trims at the lock, the structure is sound throughout exactly if no step does harm |
| ScullcLock.TrimInBetween | io/lab6_aio.c:231-252 | a possible run of one write and one trim between its reading of the geometry and its lock that breaks the structure |
| ScullcLock.UndisturbedRunsAreSerial | io/lab6_aio.c:120-284 | if every call still finds the set size it took, the run does no harm and does to the file what its calls do one after the other in the order of the locks |
| ScullcAsync.ExactlyOnce | io/lab6_aio.c:425-487 | every request finishes once, directly or by one completion that carries the result computed at submission, and each work record is freed once |
| ScullcAsync.CompletionsMoveNothing | io/lab6_aio.c:434-439 | after any run the device is what the submissions alone, in their order, made it |
| ScullcAsync.SubmissionStores | io/lab6_aio.c:459-463 | a write submission with its buffer, the lock and storage stores min(moved, length, rest of the quantum) of its bytes at its position and no others, allocates the quantum, keeps the size and computes -EFAULT |
| ScullcAsync.OthersStoreNothing | io/lab6_aio.c:453-470 | any other submission leaves the file alone; a write computes -ERESTARTSYS without the lock and -ENOMEM without buffer or storage |
| ScullcAsync.ReadResult | io/lab6_aio.c:465-470 | a read computes -ENOMEM without a buffer, 0 past the end or at a hole, and otherwise what copy_to_iter moves of the whole buffer |
| ScullcAsync.PutOffIff | io/lab6_aio.c:474-486 | a submission is put off exactly if it is asynchronous and gets its buffer and a work record, and otherwise answered by its return |
| ScullcAsync.UncoveredKept | io/lab6_aio.c:442-487 | a byte that no submission of a run covers is kept |
| ScullcAsync.LastSubmissionDecides | io/lab6_aio.c:442-487 | any other is the one the last submission to cover it stored |
| ScullcAsync.RunStores | io/lab6_aio.c:425-487 | so it is after any run, completions mixed in as they may be |
| ScullcAsync.OrderOfCompletionIsInvisible | io/lab6_aio.c:442-487 | two runs with the same submissions end with the same device whatever the order of completions |
| ScullcAsync.TransferFails | io/lab6_aio.c:459-470 | no submission moves the size, and no write submission computes a count |
| ScullcAsync.NothingEverSucceeds | io/lab6_aio.c:507-517 | in no run does a write through the registered entry points end, directly or by completion, in anything but an error, nor does the size move |
| UsbInvariant.InvKept | usb/usb-skeleton.c:72-630 | every atomic step of every party keeps all the invariants |
| UsbInvariant.DataKept | usb/usb-skeleton.c:160-330 | every step keeps: bytes handed out plus residue are the bytes received; in flight the buffer is empty and ongoing_read set |
| UsbInvariant.PermitsKept | usb/usb-skeleton.c:332-466 | every step keeps the balance of permits and of write buffers |
| UsbInvariant.ControlKept | usb/usb-skeleton.c:83-158 | every step keeps what is known of references, disconnection and the holder of io_mutex |
| UsbInvariant.ErrorsKept | usb/usb-skeleton.c:149-153 | every step keeps what is known of recorded errors and their reporters |
| UsbSafety.ReadersGetEveryByteOnce | usb/usb-skeleton.c:246-326 | the bytes returned by all reads and then the residue are the bytes of all successful bulk-in completions, in order, exactly if no copy to a reader has failed |
| UsbSafety.RefillOnlyWhenUsedUp | usb/usb-skeleton.c:187-222 | the buffer is emptied only when it is used up, and the URB submitted only when it is not in flight and the buffer is empty |
| UsbSafety.DeletedOnceAndLast | usb/usb-skeleton.c:72-133 | kref is the undropped probe reference plus the open handles; skel_delete has run exactly when both are gone, once, and then nothing is in flight and nobody holds the mutex |
| UsbSafety.NothingRunsAfterDelete | usb/usb-skeleton.c:554-584 | after skel_delete no call, callback or bus event has a step left |
| UsbSafety.NoSubmitOnceDisconnected | usb/usb-skeleton.c:237-244 | once disconnected is set no read or write URB is submitted or prepared |
| UsbSafety.StaysKilled | usb/usb-skeleton.c:577-578 | no step leads back from after the two kills |
| UsbSafety.QuietAfterKills | usb/usb-skeleton.c:572-578 | after the two kills of disconnect no URB is in flight in any later state |
| UsbSafety.SettledMeansIdle | usb/usb-skeleton.c:586-627 | when a flush reads the errors, or post_reset stores its own, no URB is active |
| UsbSafety.EightPermits | usb/usb-skeleton.c:374-462 | semaphore count, calls that hold a permit and write URBs awaiting their callback always make 8 |
| UsbSafety.BuffersFreedOnce | usb/usb-skeleton.c:353-462 | a write buffer is never freed twice, never before its callback, and has been freed when its write is done |
| UsbSafety.ReportsAreRight | usb/usb-skeleton.c:267-276 | errors is never positive, and each report is -EPIPE exactly for a recorded -EPIPE and -EIO otherwise |
| UsbSafety.ReportedOnceIffNoRace | usb/usb-skeleton.c:268-271 | a record is reported twice, or about to be, exactly if some step of the run raced |
| UsbSafety.RacedStep | usb/usb-skeleton.c:390-398 | only a write that tests errors between a read's test and clear of the same record races |
| UsbLoss.StepLoss | usb/usb-skeleton.c:149-351 | a step loses a record exactly if it overwrites one that waits unloaded, or clears errors for a read that loaded another; no other step of any party does |
| UsbLoss.LostIffDropped | usb/usb-skeleton.c:149-351 | after any run, the records that are neither reported, nor loaded by a read, nor waiting are exactly those some step dropped |
| UsbLoss.ErasedUnreported | usb/usb-skeleton.c:268-271 | a run in which a read that reports one failed write erases the record of another |
| UsbCalls.ReadTakesNextBytes | usb/usb-skeleton.c:283-318 | with unread bytes a read takes one chunk, min(available, count) of the next bytes, advances by its length, and starts I/O for the rest only if it wanted more |
| UsbCalls.ReadOfNothingStartsIo | usb/usb-skeleton.c:288-325 | without, it takes none and starts I/O for all it wants |
| UsbCalls.ReadTakesAtMostItsCount | usb/usb-skeleton.c:236-329 | over a whole call, whatever the others do meanwhile, at most one chunk is taken, of at most count bytes |
| UsbCalls.RequestLength | usb/usb-skeleton.c:192-199 | the URB asks for min(bulk_in_size, count) bytes |
| UsbCalls.OnlyBlockingReadsWait | usb/usb-skeleton.c:247-265 | with a read under way a nonblocking read gives up and a blocking one waits |
| UsbCalls.ReadOfWaitingBytes | usb/usb-skeleton.c:224-330 | a read of bytes that are there returns exactly them |
| UsbCalls.BlockingReadReturns | usb/usb-skeleton.c:246-318 | a blocking read of a used-up buffer starts I/O, waits, and returns exactly what the bus brings |
| UsbCalls.CompletedWrite | usb/usb-skeleton.c:332-357 | a write in flight is ended by its callback, with its buffer freed and its permit given back |
| UsbCalls.FailedSubmit | usb/usb-skeleton.c:437-465 | one that cannot be submitted frees its buffer and gives back its permit |
| UsbCalls.WriteGivesUp | usb/usb-skeleton.c:378-388 | one without a permit can always give up, and leaves nothing behind |
| UsbCalls.WriteMoves | usb/usb-skeleton.c:359-466 | a write that is not done always has a step to make, unless it waits for io_mutex |
| UsbCalls.HolderMoves | usb/usb-skeleton.c:136-330 | the holder of io_mutex always has a step to make, or waits for URBs in flight |
| UsbCalls.BulkInEnds | usb/usb-skeleton.c:160-185 | the bulk-in URB in flight can be ended, which ends the read under way, and its callback returns |
| UsbCalls.OpensAndCloses | usb/usb-skeleton.c:110-133 | opening takes a reference and closing an unused file gives it back |
| UsbCalls.Disconnects | usb/usb-skeleton.c:561-584 | an unused device that is unplugged is disconnected and deleted |
| UsbCalls.FlushReports | usb/usb-skeleton.c:149-153 | a flush reports the waiting error, if there is one, and leaves none |
| UsbCalls.ResetRecords | usb/usb-skeleton.c:625-627 | a reset records -EPIPE, which then waits |
| UsbCalls.WriteReports | usb/usb-skeleton.c:390-400 | a write reports the waiting error and fails before it has a buffer; without one it goes on |
| UsbCalls.ReadReports | usb/usb-skeleton.c:267-276 | a read reports the waiting error it has loaded and returns; without one it looks at the buffer |
| UsbCalls.CallbackRecords | usb/usb-skeleton.c:167-182 | a callback with a status other than 0 records it, and it waits |
| UsbSafety.DoubleReport | usb/usb-skeleton.c:268-271 | a run in which one -EPIPE is reported by a write and again by a read |
| TaskletCatchup.StepInv | interrupts/lab5_one_tasklet_improved.c:30-64 | every atomic operation keeps conservation and the announcement of left-over events |
| TaskletCatchup.NoBottomHalfLost | interrupts/lab5_one_tasklet_improved.c:30-64 | nevents is never negative, no event is lost or doubled in any interleaving, and when all is quiet counter_bh = counter_th and catchup = counter_bh less the runs that found an event |
| TaskletCatchup.CatchesUp | interrupts/lab5_one_tasklet_improved.c:34-50 | once the handlers are through, the tasklet stops, having caught up with every one |
| ThreadCatchup.Conserved | interrupts/lab5_one_thread_improved.c:35-77 | in every run nevents is never negative, no event or bottom half is lost or doubled, and catchup is counter_bh less the times the thread found an event |
| ThreadCatchup.CatchesUp | interrupts/lab5_one_thread_improved.c:56-75 | once the handlers are through, a thread that is woken or at work does the bottom half of every one before it next clears cond, and catchup grows by one less than the events it found |
| ThreadCatchup.Stops | interrupts/lab5_one_thread_improved.c:59-76 | told to stop, it finishes its loop and stops |
| ThreadCatchup.KeepsUpIff | interrupts/lab5_one_thread_improved.c:35-77 | a run that leaves the thread asleep has kept up exactly if its last clearing of cond was taken with nevents equal to the events of handlers still to set it |
| ThreadCatchup.SinceCleared | interrupts/lab5_one_thread_improved.c:54-58 | while the thread waits with cond clear, no step of any handler changes the number of events it has been left with |
| ThreadCatchup.LeftBehind | interrupts/lab5_one_thread_improved.c:54-58 | a run that leaves an interrupt without its bottom half |
| WorkItems.EveryInterruptHasItsBottomHalf | interrupts/lab7_all_workqueue_dynamic.c:27-47 | for every line and interleaving interrupts = bhs + outstanding items, exactly if none was counted before the reset to 0; items freed plus items live are the items allocated |
| WorkItems.ItemRuns | interrupts/lab7_all_workqueue_dynamic.c:27-47 | an item allocated can be counted, scheduled, run and freed, which adds one to interrupts and bhs of its line |
| WorkItems.FreedForGood | interrupts/lab7_all_tasklet_dynamic.c:27-47 | an item once freed is live in no later state of any run, and so never freed again |
| WorkItems.StepLine | interrupts/lab_all_interrupt.h:69-84 | every step, registration and reset included, keeps the balance of every line |
| WorkItems.WipedOut | interrupts/lab_all_interrupt.h:70-81 | a run that leaves a ready, quiet line with one bottom half and no interrupt |
| SharedItem.TotalsBalance | interrupts/lab6_all_workqueue.c:27-42 | with one shared item, at any stage of registration, bottom halves done, due and merged are the interrupts counted and wiped out; with all lines ready the sum of bhs is at most the sum of interrupts exactly if no more were wiped out than are due or merged, and always if none was |
| SharedItem.PendingRuns | interrupts/lab6_all_workqueue.c:27-31 | a pending item is run for the line stored last |
| SharedItem.MoreBottomHalves | interrupts/lab_all_interrupt.h:70-81 | a quiet run with one bottom half and no interrupt left in the counters |
| SharedItem.WrongLine | interrupts/lab6_all_workqueue.c:35-38 | per line nothing holds: a ready line without interrupts can be credited with the bottom half of another |
| Mouse.DecodeEncode | hardware/lab4_serial.c:169-174 | the decoder recovers every pair of signed motions from the packet that carries it |
| Mouse.SignedIs | hardware/lab4_serial.c:170-174 | a byte as a signed char is in -128..127 and the same number modulo 256 |
| Mouse.OneMotion | hardware/lab4_serial.c:136-191 | at a packet boundary, the three bytes of a motion by dx and dy in -128..127 move xpos by dx and ypos by dy |
| Mouse.Motions | hardware/lab4_serial.c:136-191 | any number of motions move the position by their sums |
| Mouse.ParseInTwo | hardware/lab4_serial.c:145-167 | framing a stream can stop anywhere and go on from the bytes held, with the same packets |
| Mouse.ByteReceived | hardware/lab4_serial.c:161-167 | what one byte does to a framer with 0, 1 or 2 bytes held: dropped, held, or the end of a packet |
| Mouse.Driver.Interrupt | hardware/lab4_serial.c:136-191 | the handler's buffer is the unframed rest of all bytes received, and xpos and ypos are the sums of the motions of all packets framed since each was last zeroed |
| Mouse.Driver.ZeroX | hardware/lab4_serial.c:126 | the first store of the reset zeroes xpos alone and keeps the packet under way |
| Mouse.Driver.ZeroY | hardware/lab4_serial.c:127 | the second store zeroes ypos alone and keeps the packet under way |
| Mouse.Driver.Zero | hardware/lab4_serial.c:119-134 | with any bytes between the stores ypos ends as 0 and xpos as the sum over the packets completed there; the two are over the same packets exactly if none was |
| Mouse.TornReset | hardware/lab4_serial.c:126-127 | a run whose reset leaves a position that is the sum of no packets |
| Mouse.OnePacketResyncs | hardware/lab4_serial.c:156-163 | from any bytes held, one well-formed packet brings the framer to a packet boundary |
| Mouse.StreamDecodes | hardware/lab4_serial.c:156-188 | from a boundary, well-formed packets are framed as sent, stray bytes without bit 0x40 between them ignored |
| Mouse.ResyncThenDecode | hardware/lab4_serial.c:145-188 | from any state and after one well-formed packet, every later packet is framed as sent |
| UserMap.ReadWrite | io/lab2_usermap.c:32-100 | the page loop is a flat copy of exactly lbuf bytes between the kernel's memory from the ramdisk on and the user's from the first page on, in the direction rw says; nothing past lbuf and nothing on the other side changes; without memory nothing does |
| UserMap.LandsIffAligned | io/lab2_usermap.c:53-79 | reads and writes of every content are of the caller's buffer exactly if that is page aligned, or empty |
| UserMap.InsideIffShort | io/lab2_usermap.c:59-79 | writes of every content leave what follows the ramdisk alone exactly for lengths up to its size |
| UserMap.CopyPages | io/lab2_usermap.c:59-94 | after the loop the first lbuf bytes have been copied, whole pages and the last part page alike |
| UserMap.CopyOut | io/lab2_usermap.c:74-77 | one page of a read carries the flat copy nb bytes further |
| UserMap.CopyIn | io/lab2_usermap.c:78-81 | one page of a write carries the flat copy nb bytes further |
| UserMap.ShownIsFlat | io/lab2_usermap.c:64-67 | a flat buffer is determined by its pages |
| UserMap.WriteThenRead | io/lab2_usermap.c:102-115 | a write and then a read of the same length give back the data, into whatever pages |
| SillyIo.RangeInWindow | hardware/lab5_silly.c:75-86 | in 64-bit unsigned arithmetic the clipped range lies in the window exactly for positions 0 to 0x60000 whose address plus count does not wrap, and is then min(count, what is left) |
| SillyIo.PastTheWindow | hardware/lab5_silly.c:81-86 | for a position past the window the count is enormous, not negative, so the promised return of 0 is never taken |
| SillyIo.GrantedIsInside | hardware/lab5_silly.c:75-90 | for every count that kmalloc could grant, the range lies in the window exactly if the position is not negative |
| SillyIo.Downgraded | hardware/lab5_silly.c:98-106 | a 32- or 16-bit mode survives the downgrade only if address and count are multiples of its width |
| Bits.AlignedTogether | hardware/lab5_silly.c:103-106 | (a or b) and (2^k - 1) is 0 exactly if both a and b are multiples of 2^k |
| SillyIo.LoadStore | hardware/lab5_silly.c:111-121 | a little-endian word loaded and stored is the bytes it was loaded from |
| SillyIo.CopyWords | hardware/lab5_silly.c:109-134 | the loop of a width copies exactly the whole words, byte for byte, and leaves a remainder shorter than a word untouched |
| SillyIo.Fill | hardware/lab5_silly.c:103-138 | all four modes fill the buffer with the same bytes, mem[addr..addr + count) |
| SillyIo.Read | hardware/lab5_silly.c:70-148 | bytes, return value and new position for every minor, count and position, with failed allocation, unknown minor and faulting copy, which moves the position back by EFAULT |
| BlockQueue.AcceptedIff | block/lab2_block.c:96-105 | the end-of-device test lets through exactly the segments that fit and those from sector 2^23 on whose wrapped place fits |
| BlockQueue.InsideCapacity | block/lab2_block.c:195 | every segment inside the announced capacity is accepted at its own place |
| BlockQueue.WrappedWrite | block/lab2_block.c:99-110 | the routine alone would let a write at sector 2^23 overwrite sector 0 of a 128 MB disk |
| BlockQueue.ToDisk | block/lab2_block.c:107-110 | a write segment puts its buffer at its offset of the disk, and every buffer keeps its bytes |
| BlockQueue.FromDisk | block/lab2_block.c:111-115 | a read segment gives its buffer the disk's bytes, and the disk and every other buffer keep theirs |
| BlockQueue.Transfer | block/lab2_block.c:91-115 | the body of the loop does to disk and buffers what one step of the fold does |
| BlockQueue.Round | block/lab2_block.c:90-119 | a round carries out the first pending segment and no other, and makes progress |
| BlockQueue.MyRequest | block/lab2_block.c:81-121 | on any finite queue the routine terminates, ends every segment once, and leaves disk and buffers as the left fold of all segments in queue order |
| BlockQueue.CountSegs | block/lab2_block.c:89-118 | the segments of a queue are those of its requests, each once |
| BlockQueue.CountRequest | block/lab2_block.c:96-118 | segment i of a request starts where the sectors of those before it end |
| BlockQueue.UnreadBufferKept | block/lab2_block.c:91-115 | a buffer that no accepted filesystem read goes to is kept |
| BlockQueue.LastReadDecides | block/lab2_block.c:111-115 | any other holds what the disk had at the place of the last read into it, when its turn came |
| BlockQueue.UnwrittenByteKept | block/lab2_block.c:91-105 | a byte of the disk that no accepted filesystem write covers is kept |
| BlockQueue.LastWriteDecides | block/lab2_block.c:107-110 | any other byte is what the last write to cover it had in its buffer when its turn came |
| BlockQueue.WriteRequest | block/lab2_block.c:90-118 | a write request that fits stores its data as one piece, wherever the segments were cut |
| BlockQueue.ReadKeeps | block/lab2_block.c:111-115 | a read request keeps the disk and all buffers but its own |
| BlockQueue.ReadRequest | block/lab2_block.c:90-118 | a read request into distinct buffers gives them, joined, the disk's bytes at its position |
| BlockQueue.WriteThenRead | block/lab2_block.c:81-121 | what one request writes the next reads back, however either is cut into segments |
| Bits.MaskIsRemainder | serial/tiny_serial.c:85 | masking with a power of two less one is the remainder by that power |
| TxRing.MaskIsAt | serial/tiny_serial.c:85 | the mask brings the next tail back into the ring |
| TxRing.Port.CharsPending | serial/tiny_serial.c:87-91 | the masked difference is the number of characters from tail to head, 0 exactly if they meet |
| TxRing.ChunkIs | serial/tiny_serial.c:82 | the most a call sends is half the fifo rounded down, and 1 for a fifo below 4 |
| TxRing.XCharAlone | serial/tiny_serial.c:71-76 | a flow control character goes alone, stopped or not |
| TxRing.SendsIffGoing | serial/tiny_serial.c:77-89 | without one a stopped port sends nothing, and any other the next min(pending, chunk) characters |
| TxRing.Port.TakeOne | serial/tiny_serial.c:84-86 | one round removes the oldest pending character, counts it, and keeps tail in range |
| TxRing.Port.Drain | serial/tiny_serial.c:82-89 | the do loop removes exactly min(pending, max(1, fifosize >> 1)) characters, oldest first |
| TxRing.Port.TxChars | serial/tiny_serial.c:66-96 | a pending x_char goes alone and first; otherwise nothing when stopped or empty, and the drained chunk when not; writers are woken exactly after a drain that leaves fewer than 256 characters |
| TxRing.Replay | serial/tiny_serial.c:66-96 | any run of the port's own methods leaves the ring, flags and counter that the same run leaves of the abstract line, and from a fresh port on nothing is lost |
| TxRing.NothingLost | serial/tiny_serial.c:66-96 | over any run what was written is what was sent and then what is pending, in order, and icount.tx is characters removed plus x_chars sent |
| TxRing.TicksTake | serial/tiny_serial.c:102-127 | k timer ticks send the first min(pending, k chunks) characters |
| TxRing.EmptyAfter | serial/tiny_serial.c:102-127 | the ring is empty after k ticks exactly if it held at most k chunks |

## Left out

- Machine integers: scullc, the mouse, icount.tx and the event counters are modelled without wrap-around; offsets of I/O reads and of block segments are modelled with it.
- hardware/lab4_serial.c:93-109: the read of the mouse position, which copies xpos and ypos one after the other, is not modelled.
- ScullcLock: models the device by the lengths of its arrays, since a wild access has no meaning in the heap; what happens after one is not modelled.
- scullc ioctls: the set-size ioctls change only a module variable, and its value is the parameter a later trim adopts; the quantum ioctls are outside the model, since the object cache has a fixed size; open (with its trim on a write-only open) and mappings are not modelled beyond the -EBUSY test.
- Partial copies: which bytes a faulting user copy has moved is taken to be a prefix.
- ScullcAsync.TransferFails: a read may still be answered with a count, since copy_to_iter takes the negative result for a length; what it copies then is not modelled.
- USB endpoint discovery, power management, suspend, DMA mapping, and the contents of bulk-out transfers are not modelled; the return values of reads and writes other than data and error reports are not recorded.
- The USB protocol and the interrupt handlers are state machines over values and not classes: their subject is the interleaving of atomic operations, which a method body cannot express.
- UserMap.ReadWrite: the pages are taken to be all pinned and distinct (the code does not look at the result of get_user_pages), and the kernel's memory from the ramdisk on to be at least lbuf bytes.
- SillyIo.Read: an allocation of 2 GB or more is taken never to be granted; a granted read at a negative position is of I/O memory the driver has not mapped, and is modelled as if that were there.
- BlockQueue.MyRequest: a segment is taken to hold whole sectors and less than 2 GB; WriteRequest and ReadRequest are for requests that fit on the disk.
- TxRing.Port.PutChar: like SendXChar and SetStopped, models the serial core's side of the port, of which the repository has only the use; the core's locking is left out.
- ScullcRuns.Replay: stops at a call that does not return; what a division by zero or a walk of a negative number of items leaves behind is not modelled.
- Failed GFP_ATOMIC allocations in interrupt handlers, which the handlers do not check.
- interrupts/lab8_all_threaded.c, interrupts/lab9_one_threaded.c: nothing guards their decrement, so the property proved here does not hold of them.
- hardware/lab5_silly.c writes, hardware/lab4_full_mouse_driver.c, block/sbd.c, the wait-queue and ioctl demos: small, or without the property one would want.
- Module start and stop, registration with the kernel, proc files, printing and the user-space programs: plumbing around kernel calls.
