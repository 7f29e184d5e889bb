# Nachos in Dafny

A model of the hard parts of the Nachos teaching kernel, and proofs about it. Six parts of the
kernel are covered, each built of small pieces that the next one uses.

**The file system on disk.** Sectors, the bitmap of free sectors, file headers, open files, the
directory and the operations of the file system, as they are with the file system that Nachos
implements itself. The free map and the directory are files on the disk they manage. The main
results are one invariant of the disk (the free map marks exactly the disjoint union of the sectors
that the two well-known files and the listed files own) kept by every operation, reading and writing
as slicing a flat sequence of bytes for every request that keeps to one rule, all-or-nothing operations, and
refinement of whole runs to a map from names to bytes. Modules `Wrappers`, `Bytes`, `Bitmaps`, `DiskLayout`,
`OpenFiles`, `Directories`, `PersistentBitmaps`, `Ownership`, `Bookkeeping`, `FileSystemSpec`,
`FileSystemContract`, `FileSystems`, `FileSystemRuns`.

**Threads and synchronisation.** Code between two points where interrupts are enabled is one step,
and every interleaving of steps is a run. Semaphores, locks built on them, conditions built on both,
the synchronized list built on a condition, the synchronized disk, the handshake of ExecV, Join and
Exit, and the scheduler are state machines with an invariant that every step of every thread keeps;
the results are about every state of every run. Semaphores and the scheduler are also classes, whose
methods are proved to take these steps. Modules `Threads`, `Semaphores`, `Locks`, `Conditions`,
`SynchLists`, `SynchDisks`, `ProcessTables`, `Schedulers`.

**The simulated processor.** The 64-bit multiplication, and loads and stores of unaligned words with
the delayed load between them. Modules `Multiply`, `WordBytes`, `UnalignedBytes`, `Unaligned`.

**Address spaces.** Frames and page tables, copying through a page table, the layout of program
arguments and reading them back, and who owns which frame over whole runs. Modules `VirtualMemory`,
`Arguments`, `AddrSpaces`, `FrameOwnership`.

**Simulated time.** The queue of pending interrupts and the clock, and the latency of the disk with
its track buffer. Modules `Interrupts`, `Disks`.

**The hash table** that grows by itself, and its iterator. Module `HashTables`.

Numbers are unbounded in Dafny. Where the width matters (the words of a bitmap, a header on disk,
registers, addresses, products) it is written out with 32-bit ranges and explicit wrap-around.
Memory that `new` leaves uninitialised holds arbitrary values in the model. Time, the contents of
the disk at the start, the delays that handlers ask for and the outcome of loading a program are
parameters.

A call that reaches outside an array, or fails an assertion of the source on its way, has the outcome
`Overrun` in the model, which stops at that access; each such call has a condition, stated as an
if-and-only-if, that a caller can check. A failed access to user memory ends the process in the source,
so the model returns nothing from it.

The code departs from what it is evidently for in these places. Each is modelled as it is, with the
exact condition and, where it fails, an input or a run on which it does:

- code/filesys/openfile.cc:180 passes a variable that is not a parameter; the model passes the buffer that is. This is the one place where the model differs.
- code/filesys/openfile.cc:218 and :246 add two integers before comparing with the length of the file. `OpenFiles.Served` is the rule a request must keep to. A read that breaks it overruns the table of sectors or, when the end has wrapped around further, returns a buffer that nothing was read into; a write that breaks it overruns in every case (`PlanCases`, `OverrunHappens`, `JunkHappens`).
- code/filesys/filehdr.cc:43-56 does not check that a file fits its header. A size above the limit is refused when the disk has too few free sectors and overruns otherwise (`TooLargeHappens`). Negative sizes make empty files.
- code/threads/ptable.cc:67-71 returns without releasing the mutex when the table is full: when the mutex is lost, that the loss happens, and what follows (`MutexInPlay`, `LeakHappens`, `LockedOut`).
- code/threads/ptable.cc:85-102 lets a parent join the same child again before it is gone. Whoever does so is never woken again, and a run loses nobody in this way if and only if it joins no child twice; there is a run in which the parent is left asleep on the semaphore of a deleted PCB (`JoinAgain`, `LostForever`, `LosesNobodyIffJoinsOnce`, `SecondJoinHappens`).
- code/threads/synch.cc:47-52 accepts a negative value, from which P stops nobody (`NeverNegative`, `NegativeStopsNobody`).
- code/userprog/addrspace.cc:153-170 does not check where the segments of a program lie. One outside the address space overruns the page table (`OutsideHappens`); one that reaches into the arguments is overwritten by them. Neither does it check the sizes: when some are negative, or their unsigned sum wraps around, the arguments may find no room (`NoRoomHappens`).
- code/userprog/addrspace.cc:194 zeroes one byte of the word that ends the pointer table; the word is zero if and only if the program left the other three bytes zero (`TableEnds`, `ZeroWord`, `WordNotZero`, `EndlessHappens`).

`dafny verify dfyconfig.toml` checks everything.

## Model

| member | source | states |
|---|---|---|
| FileSystemRuns.Run | code/filesys/filesys.cc:273-472 | for every sequence of Create, Remove and Write calls, of any size and at any position, from any sound disk: up to the first call that overruns, the disk is sound and the files, their sizes, the number of free sectors and the results are those of a map from names to bytes; which calls overrun can be told from that map |
| FileSystemRuns.RunHeld | code/filesys/filesys.cc:365-472 | any run in which files are kept open through handles while others are created and removed: the handles stay good, and writing through one is writing to the file of that name, up to the first call that overruns |
| FileSystemRuns.WriteFile | code/filesys/openfile.cc:238-275 | opening a file and writing to it replaces, in the map from names to bytes, the part of that one file that exists in the range; it fails exactly when the name is unknown, and overruns exactly when the request breaks the rule |
| FileSystemRuns.TooLargeHappens | code/filesys/filehdr.cc:43-56 | on every file system with an entry left, a file of 3841 bytes under a new name finds room and overruns its header |
| FileSystemRuns.ReadFile | code/filesys/openfile.cc:211-236 | opening a file and reading from it returns the bytes that exist in the range if and only if the request keeps to the rule |
| FileSystems.FileSystem.Format | code/filesys/filesys.cc:273-327 | formatting a disk with any contents makes a sound, empty file system |
| FileSystems.FileSystem.constructor | code/filesys/filesys.cc:328-333 | opening a formatted disk finds the free map and the directory through sectors 0 and 1 |
| FileSystems.FileSystem.Create | code/filesys/filesys.cc:365-403 | fails, with no sector changed, exactly when the name is known, ten files exist or the sectors are not there; otherwise overruns exactly when the size is above the limit of a header; otherwise one file is added on free sectors and all else is as it was |
| FileSystems.FileSystem.Reserve | code/filesys/filesys.cc:380-390 | in memory: takes a header sector, an entry and the data sectors, or reports -1 exactly when a sector too few or no entry is free, or overruns exactly when the size is above the limit |
| FileSystems.FileSystem.Remove | code/filesys/filesys.cc:444-472 | succeeds exactly when the name is known; then the file is gone, its header and data sectors are free, and every other file is as it was; otherwise no sector changes |
| FileSystems.FileSystem.Release | code/filesys/filesys.cc:457-463 | the marks lose exactly the header sector and the data sectors of the file; the assertion that each was marked holds |
| FileSystems.FileSystem.Open | code/filesys/filesys.cc:416-428 | a handle exactly for a known name, holding that file's header, at position 0 |
| FileSystemContract.RemoveUndoesCreate | code/filesys/filesys.cc:365-472 | removing a file just created restores the free map, the directory and every file |
| FileSystemContract.CreateMeets | code/filesys/filesys.cc:391-396 | writing the header, the directory and the free map of a new file amounts to adding it |
| FileSystemContract.RemoveMeets | code/filesys/filesys.cc:466-467 | writing back the free map and the directory amounts to removing the file |
| FileSystemContract.WriteMeets | code/filesys/openfile.cc:238-275 | a write through a handle on a listed file changes that file only: names, headers, free map and other files stay |
| FileSystemContract.Listed | code/filesys/filesys.cc:273-472 | on a sound disk each listed file has a sound header outside sectors 0 and 1, and its sectors are marked |
| FileSystemSpec.SoundIffBalanced | code/filesys/filesys.cc:273-472 | the invariant, kept entry by entry, says exactly that the free map marks the disjoint union of the sectors of the two well-known files and of every listed file |
| FileSystemSpec.CreateKeeps | code/filesys/filesys.cc:365-403 | Create keeps that invariant |
| FileSystemSpec.RemoveKeeps | code/filesys/filesys.cc:444-472 | Remove keeps it |
| FileSystemSpec.WriteKeeps | code/filesys/openfile.cc:238-275 | writing to a file keeps it |
| FileSystemSpec.FormatSound | code/filesys/filesys.cc:273-324 | formatting establishes it |
| FileSystemSpec.CreateFiles | code/filesys/filesys.cc:365-403 | the new file holds whatever its sectors held; the other files are unchanged |
| FileSystemSpec.RemoveFiles | code/filesys/filesys.cc:444-472 | the other files are unchanged |
| FileSystemSpec.WriteFiles | code/filesys/openfile.cc:238-275 | the other files are unchanged |
| FileSystemSpec.RoomForOneMore | code/filesys/filesys.cc:365-389 | ten files of the greatest size leave room for one more, so a Create is refused for lack of an entry only |
| Bookkeeping.MetaApart | code/filesys/filesys.cc:240-262 | the data of the free map and of the directory are apart from each other, from all headers and from all files |
| Bookkeeping.MarksBound | code/filesys/filesys.cc:240-262 | the number of marked sectors is bounded by the number of files |
| OpenFiles.FileHeader.Allocate | code/filesys/filehdr.cc:43-56 | fails exactly when too few sectors are free, with the marks as they were; overruns exactly when they are there and the size is above the limit; otherwise takes distinct free sectors, one for every 128 bytes, and marks exactly those |
| OpenFiles.FileHeader.TakeSectors | code/filesys/filehdr.cc:49-54 | FindAndSet never fails inside the loop, and the loop stays inside the table exactly when the file has no more sectors than the table has entries |
| OpenFiles.FileHeader.Deallocate | code/filesys/filehdr.cc:65-70 | unmarks exactly the data sectors of the file |
| OpenFiles.FileHeader.FetchFrom | code/filesys/filehdr.cc:79-81 | the fields are those the sector encodes |
| OpenFiles.FileHeader.WriteBack | code/filesys/filehdr.cc:90-92 | changes one sector, from which the same header is read back |
| OpenFiles.FileHeader.ByteToSector | code/filesys/filehdr.cc:104-106 | the sector is one of the file, and on every disk holds, at the offset within it, that byte of the file |
| DiskLayout.HeaderRoundTrip | code/filesys/filehdr.cc:79-92 | a header survives being written to a sector and read back |
| OpenFiles.OpenFile.constructor | code/filesys/openfile.cc:133-137 | holds the header read from the sector, at position 0 |
| OpenFiles.OpenFile.ReadAt | code/filesys/openfile.cc:211-236 | returns exactly the slice of the bytes of the file that exists in the range if and only if the request keeps to the rule; otherwise overruns, or returns more bytes than the file has |
| OpenFiles.OpenFile.WriteAt | code/filesys/openfile.cc:238-275 | returns if and only if the request keeps to the rule; then exactly that slice of the file is replaced, no sector of another file changes, and a request that transfers nothing changes nothing |
| OpenFiles.PlanCases | code/filesys/openfile.cc:217-224 | in 32-bit arithmetic, a request that keeps to the rule is clamped and stays inside the table and the buffer; any other reaches outside them, or has wrapped so far that no sector is transferred |
| OpenFiles.OverrunHappens | code/filesys/openfile.cc:217-224 | one byte into a file of the greatest size, the largest request reaches for sector 16777215 of the file |
| OpenFiles.JunkHappens | code/filesys/openfile.cc:217-235 | in its last sector, a request that wraps further stays inside the buffer and transfers no sector |
| OpenFiles.ByteIsThere | code/filesys/filehdr.cc:104-106 | each byte of a file is in the sector that the table names |
| OpenFiles.OpenFile.ReadAround | code/filesys/openfile.cc:254-264 | the buffer holds the file's own bytes wherever the write does not reach |
| OpenFiles.ReadsSurround | code/filesys/openfile.cc:254-264 | reading in the first and the last sector, only when they are partly overwritten, is enough |
| OpenFiles.PutIsWritten | code/filesys/openfile.cc:266-272 | writing whole sectors with the range replaced writes exactly the range of the file |
| OpenFiles.PutIsSplice | code/filesys/openfile.cc:269-272 | writing sectors one by one replaces one run of bytes |
| OpenFiles.OpenFile.Read | code/filesys/openfile.cc:156-177 | reads on from the position, wherever Seek has put it, and advances it by what was read |
| OpenFiles.OpenFile.Write | code/filesys/openfile.cc:156-183 | writes on from the position and advances it by what was written |
| Directories.EntryRoundTrip | code/filesys/directory.cc:60-73 | an entry survives being written and read back |
| Directories.TableRoundTrip | code/filesys/directory.cc:60-73 | so does the table |
| Directories.Directory.FetchFrom | code/filesys/directory.cc:60-62 | the table is the one the file encodes |
| Directories.Directory.WriteBack | code/filesys/directory.cc:71-73 | the file encodes the table afterwards, and nothing else on the disk changes |
| Directories.Directory.FindIndex | code/filesys/directory.cc:83-88 | the first entry in use under the name, or -1 exactly when there is none |
| Directories.Directory.Find | code/filesys/directory.cc:99-105 | the sector of such an entry, or -1 |
| Directories.Directory.Add | code/filesys/directory.cc:118-130 | succeeds exactly when the name is not there and an entry is free; then one free entry holds the name and the sector |
| Directories.Directory.Remove | code/filesys/directory.cc:140-147 | succeeds exactly when the name is there; then its entry is out of use |
| Directories.SamePrefixIff | code/filesys/directory.cc:83-88 | comparing the first nine characters finds two names the same exactly when their cut forms are equal |
| Directories.CopyNameKey | code/filesys/directory.cc:124-126 | copying at most nine characters into an entry stores the cut form of the name |
| Directories.MapAfterAdd | code/filesys/directory.cc:118-130 | adding an entry adds one pair to the map from names to sectors |
| Directories.MapAfterRemove | code/filesys/directory.cc:140-147 | taking an entry out of use removes that pair |
| PersistentBitmaps.FetchFrom | code/filesys/pbitmap.cc:59-61 | the words are those the file encodes |
| PersistentBitmaps.WriteBack | code/filesys/pbitmap.cc:70-72 | the file encodes the words afterwards |
| Bitmaps.Bitmap.constructor | code/lib/bitmap.cc:21-35 | nothing is marked |
| Bitmaps.Bitmap.Mark | code/lib/bitmap.cc:53-59 | adds one item to the marked ones, on an array of 32-bit words |
| Bitmaps.Bitmap.Clear | code/lib/bitmap.cc:68-74 | removes one item |
| Bitmaps.Bitmap.Test | code/lib/bitmap.cc:83-91 | whether an item is marked |
| Bitmaps.Bitmap.FindAndSet | code/lib/bitmap.cc:102-110 | marks and returns the smallest unmarked item, or -1 exactly when all are marked |
| Bitmaps.Bitmap.NumClear | code/lib/bitmap.cc:118-127 | the number of unmarked items |
| Bitmaps.SetBitSetsOne | code/lib/bitmap.cc:53-59 | setting a bit of a word sets that bit and leaves the others |
| Bitmaps.ClearBitClearsOne | code/lib/bitmap.cc:68-74 | clearing a bit clears that bit and leaves the others |
| Semaphores.EveryRun | code/threads/synch.cc:74-112 | every interleaving of P and V keeps the invariant: value is not negative, equals the initial value plus Vs minus decrements, and while threads sleep does not exceed the number of threads awake to test again |
| Semaphores.FirstRun | code/threads/synch.cc:74-112 | from a new semaphore the counts balance whatever its value, and the rest holds when that is not negative |
| Semaphores.StepKeeps | code/threads/synch.cc:74-112 | no step of P or V breaks it |
| Semaphores.UnitHasTaker | code/threads/synch.cc:74-112 | while threads sleep and a unit is free, a thread is awake that takes it |
| Semaphores.NeverNegative | code/threads/synch.cc:47-112 | the value stays out of the negative in every run if and only if it starts there |
| Semaphores.NegativeStopsNobody | code/threads/synch.cc:74-112 | from a negative value P stops nobody until V has made up for it |
| Semaphores.Semaphore.constructor | code/threads/synch.cc:47-52 | a new semaphore, nobody waiting; the invariant holds if and only if the value is not negative |
| Semaphores.Semaphore.TestOnce | code/threads/synch.cc:79-85 | one test of the loop of P: sleeps exactly when the value is zero |
| Semaphores.Semaphore.V | code/threads/synch.cc:99-112 | readies the first thread in the queue, if any, and adds a unit |
| Locks.MutualExclusion | code/threads/synch.cc:172-192 | in every run, with preemption anywhere between P, the assignment of the holder and V, at most one thread is inside, and the holder named is that thread |
| Locks.EveryRun | code/threads/synch.cc:172-192 | every run keeps the invariant |
| Locks.StepKeeps | code/threads/synch.cc:172-192 | every step keeps it |
| Locks.StepRefines | code/threads/synch.cc:172-192 | to its users the lock is a variable naming its owner: a step takes it when free, gives it back when owned, or leaves it |
| Locks.RunRefines | code/threads/synch.cc:172-192 | every run of the lock is, to its users, a run of a variable that names its owner; this is the lock that the condition and the synchronized disk use |
| Conditions.SignalledOnce | code/threads/synch.cc:232-282 | in every run each waiter's semaphore is in the queue at most once and is signalled at most once, and not while it is in the queue |
| Conditions.NoLostSignal | code/threads/synch.cc:232-282 | in every run a waiter that was signalled, even between releasing the lock and its P, can go on to take the lock again |
| Conditions.BroadcastDone | code/threads/synch.cc:278-282 | in every run, once the queue is empty again every waiter has been signalled |
| Conditions.EveryRun | code/threads/synch.cc:232-282 | every run keeps the invariant |
| Conditions.MoveKeeps | code/threads/synch.cc:232-282 | every step of every thread keeps it |
| SynchLists.NothingLost | code/threads/synchlist.cc:50-75 | in every run with any number of producers and consumers, the items removed followed by those on the list are the items appended, in order |
| SynchLists.NoItemStranded | code/threads/synchlist.cc:50-75 | in every run, while the lock is free and a consumer waits, the list is no longer than the number of consumers that have been signalled and are yet to remove |
| SynchLists.EveryRun | code/threads/synchlist.cc:50-75 | every run keeps the invariant |
| SynchLists.ActionKeeps | code/threads/synchlist.cc:50-75 | every action keeps it |
| SynchDisks.NeverBusy | code/filesys/synchdisk.cc:54-85 | in every run the device is idle whenever a request reaches it, so its assertion holds |
| SynchDisks.OwnInterrupt | code/filesys/synchdisk.cc:54-85 | in every run a call returns only after the interrupt for its own request |
| SynchDisks.EveryRun | code/filesys/synchdisk.cc:54-85 | every run keeps the invariant |
| SynchDisks.StepKeeps | code/machine/disk.cc:109-153 | every step of a thread or of the device keeps it |
| ProcessTables.JoinReturnsExitCode | code/threads/ptable.cc:85-122 | in every run, Join reads the PCB of the child it waited for, and in it the code that child gave to Exit |
| ProcessTables.NeverStale | code/threads/ptable.cc:60-122 | in every run, every step finds the PCBs it uses, and whoever is in Join has the PCB of the child there or is lost, waiting for a child whose join is over |
| ProcessTables.PidKept | code/threads/ptable.cc:85-122 | in every run, a child being joined keeps its process id, which is not given out again before the joiner has released it |
| ProcessTables.StepKeeps | code/threads/ptable.cc:60-122 | every step of ExecV, Join and Exit, a second Join included, keeps the invariant of the table |
| ProcessTables.EveryRun | code/threads/ptable.cc:60-122 | every run, whatever it joins, keeps the invariants of the table and of the mutex |
| ProcessTables.LosesNobodyIffJoinsOnce | code/threads/ptable.cc:85-122 | a run leaves nobody waiting for a child whose join is over if and only if it joins no child twice |
| ProcessTables.LostForever | code/threads/ptable.cc:85-102 | whoever waits for a child whose join is over takes no further step in any continuation of the run |
| ProcessTables.JoinAgain | code/threads/ptable.cc:85-102 | a Join that may go ahead leaves its caller waiting for a child whose join is over if and only if that child has been joined before |
| ProcessTables.SecondJoinHappens | code/threads/ptable.cc:85-122 | a run from the start of the kernel in which the parent joins a child twice and is lost on the semaphore of a deleted PCB |
| ProcessTables.StepIsLive | code/threads/ptable.cc:85-122 | when Join goes on, the table still holds the PCB that was waited on, and when a program has been loaded or not, the PCB made for it |
| ProcessTables.TakeOk | code/threads/ptable.cc:60-83 | ExecV keeps the unit of the mutex in play if and only if a process id is free |
| ProcessTables.NotBorn | code/threads/ptable.cc:85-89 | a child whose program is still being loaded cannot be joined |
| ProcessTables.MutexInPlay | code/threads/ptable.cc:60-83 | in every run the mutex is free or held by a process in ExecV if and only if ExecV has never met a full table |
| ProcessTables.LockedOut | code/threads/ptable.cc:67-71 | after ExecV has met a full table, no process gets past P in ExecV again |
| ProcessTables.LeakHappens | code/threads/ptable.cc:67-71 | that does happen: nine children that do not exit and one more call |
| ProcessTables.FirstFree | code/lib/bitmap.cc:102-110 | the smallest free process id, or -1 exactly when there is none |
| Schedulers.OnePlace | code/threads/scheduler.cc:54-158 | in every run each thread is in exactly one place: new, ready, waiting, current, to be destroyed or destroyed |
| Schedulers.FirstComeFirstServed | code/threads/scheduler.cc:54-79 | in every run threads leave the ready list in the order in which they joined it |
| Schedulers.DestroyedOnce | code/threads/scheduler.cc:98-158 | in every run the thread to be destroyed is not the current one and has not been destroyed; the field is empty except between a switch and the check after it; no destroyed thread is ready, waiting or current |
| Schedulers.SwitchToItself | code/threads/thread.cc:238-252 | a thread that sleeps until it is itself the next one ready comes back as the current thread |
| Schedulers.StepKeeps | code/threads/scheduler.cc:54-158 | every step keeps the invariant |
| Schedulers.EveryRun | code/threads/scheduler.cc:54-158 | every run keeps it, and what is destroyed stays so |
| Schedulers.Scheduler.constructor | code/threads/scheduler.cc:32-35 | one thread, which runs |
| Schedulers.Scheduler.ReadyToRun | code/threads/scheduler.cc:54-60 | the thread joins the end of the ready list |
| Schedulers.Scheduler.FindNextToRun | code/threads/scheduler.cc:71-79 | takes the first thread off the list, or none exactly when it is empty |
| Schedulers.Scheduler.Run | code/threads/scheduler.cc:98-143 | the next thread is current; a finishing one is recorded for destruction |
| Schedulers.Scheduler.CheckToBeDestroyed | code/threads/scheduler.cc:153-158 | destroys the recorded thread and clears the record |
| Schedulers.Scheduler.Yield | code/threads/thread.cc:202-216 | the first ready thread runs and the yielding one joins the end; with nobody ready nothing changes |
| Schedulers.Scheduler.SleepEnd | code/threads/thread.cc:238-252 | the first ready thread runs, and the sleeper is destroyed exactly when it was finishing |
| Multiply.Mult | code/machine/mipssim.cc:753-809 | hi and lo are the exact 64-bit product for all operands, signed and unsigned, the most negative ones included |
| Multiply.MultiplyUnsigned | code/machine/mipssim.cc:774-795 | the shift-and-add loop, with its early exit and its arithmetic shift, multiplies the unsigned values |
| Multiply.SignedProduct | code/machine/mipssim.cc:760-772 | the magnitudes, with wrap-around of the most negative operand, multiply to the magnitude of the product |
| Multiply.AddWide | code/machine/mipssim.cc:781-787 | the carry found by comparison makes the addition of double words exact |
| Multiply.NegateWide | code/machine/mipssim.cc:797-805 | inverting both halves and adding one negates a double word |
| Unaligned.Machine.LoadUnaligned | code/machine/mipssim.cc:304-409 | LWR at a and LWL at a + 3, into any register, load the little-endian word of the four bytes from a on, with or without an interrupt between them, and change no other register; where a load in progress, or LWR itself, changes the base, they work on two addresses, as stated; register 0 stays zero; they fail exactly when a word does not translate |
| Unaligned.Machine.StoreUnaligned | code/machine/mipssim.cc:539-654 | SWR and SWL write exactly those four bytes; with a load in progress to the base or the stored register, SWR takes the old value and SWL the new one |
| Unaligned.Machine.StoreThenLoad | code/machine/mipssim.cc:304-654 | a word stored at any address is loaded back from it into any register but 0, when no load changes the base or the stored register on the way |
| Unaligned.Machine.Lwl | code/machine/mipssim.cc:304-354 | merges the low end of the aligned word into the high-order bytes of the register as it will be once a pending load completes; a failed access completes the load in progress and changes nothing else |
| Unaligned.Machine.Lwr | code/machine/mipssim.cc:356-409 | merges its high end into the low-order bytes; a failed access completes the load in progress and changes nothing else |
| Unaligned.Machine.Swl | code/machine/mipssim.cc:539-596 | stores the high-order bytes of the register at the low end of the aligned word; a failed access completes the load in progress and changes nothing else |
| Unaligned.Machine.Swr | code/machine/mipssim.cc:598-654 | stores its low-order bytes at the high end; a failed access completes the load in progress and changes nothing else |
| Unaligned.Machine.DelayedLoad | code/machine/mipssim.cc:697-702 | completes the load in progress, starts the next one, and leaves register 0 zero |
| WordBytes.MergeLeft | code/machine/mipssim.cc:330-352 | the bytes of the result, case by case of the byte offset |
| WordBytes.MergeRight | code/machine/mipssim.cc:383-407 | the bytes of the result |
| WordBytes.StoreLeft | code/machine/mipssim.cc:565-586 | the bytes of the result |
| WordBytes.StoreRight | code/machine/mipssim.cc:623-646 | the bytes of the result |
| UnalignedBytes.LoadPair | code/machine/mipssim.cc:304-409 | the two merges, in either order, give the four bytes of the unaligned word |
| UnalignedBytes.StorePair | code/machine/mipssim.cc:539-654 | the two partial stores write the four bytes and no others |
| Interrupts.Run | code/machine/interrupt.cc:144-305 | over every run the clock does not go back and is the sum of its three parts; interrupts come in order of due time, ties in order of scheduling, none early; those that have come and those pending are, as a multiset, those that were scheduled |
| Interrupts.Interrupt.CheckIfDue | code/machine/interrupt.cc:267-305 | nothing due is left; the clock moves to the next interrupt only when asked; the first to come is the first pending one, and all come at the current time |
| Interrupts.Interrupt.FireDue | code/machine/interrupt.cc:297-303 | the loop ends, because handlers schedule strictly later interrupts only |
| Interrupts.Interrupt.Schedule | code/machine/interrupt.cc:245-253 | adds one interrupt, behind those due no later |
| Interrupts.Interrupt.FindPlace | code/lib/list.cc:215-240 | the position behind everything that is not later |
| Interrupts.Interrupt.OneTick | code/machine/interrupt.cc:144-171 | time advances by one user tick or ten system ticks, charged to the mode, and nothing due is left |
| Interrupts.Interrupt.Idle | code/machine/interrupt.cc:200-218 | time moves on to the next interrupt and counts as idle; halts exactly when there is none |
| Interrupts.Ordered | code/machine/interrupt.cc:267-305 | what the class keeps of neighbours in the queue and the history orders any two interrupts |
| Interrupts.InsertKeeps | code/lib/list.cc:215-240 | insertion keeps the queue sorted, ties in order of scheduling |
| Disks.Disk.ComputeLatency | code/machine/disk.cc:215-232 | without the track buffer the transfer starts at the first moment after the seek when the head is at the sector; with it, exactly when the whole sector has passed since the buffer began to fill, the transfer is all there is; the latency lies within fixed bounds |
| Disks.Disk.TimeToSeek | code/machine/disk.cc:166-179 | the seek time, and the rotation to the next sector boundary |
| Disks.Disk.UpdateLast | code/machine/disk.cc:240-248 | a seek empties the buffer, which fills again from the first sector boundary after it |
| Disks.Disk.Request | code/machine/disk.cc:109-143 | an idle device becomes active, with that latency; the buffer starts at a sector boundary |
| Disks.BufferTest | code/machine/disk.cc:221-227 | the test of the track buffer holds if and only if the whole sector has passed under the head |
| Disks.RotationIsFirst | code/machine/disk.cc:229-231 | the rotation computed brings the sector under the head for the first time |
| Disks.ModuloDiffIsFirst | code/machine/disk.cc:187-192 | the difference is the least rotation |
| AddrSpaces.AddrSpace.Load | code/userprog/addrspace.cc:97-199 | for segments of any size, negative ones included, at any address: fails, with nothing taken or changed, exactly when the file does not exist or too few frames are free; otherwise overruns exactly when a segment that is not empty reaches outside the address space or in front of the file, or the sizes add up to so little, being negative or wrapping around, that the arguments find no room; otherwise the frames are new and marked, the program is in place over zeros, the pointer table and the strings lie at the top, and no other frame has changed |
| AddrSpaces.ArgumentsRoundTrip | code/userprog/addrspace.cc:171-195 | what ExecV reads back from a program that was loaded with arguments is the argument list, wherever the segments of the program lie |
| Arguments.TableEnds | code/userprog/addrspace.cc:171-195 | the table ends in a zero word if and only if the three bytes behind its first were zero before; the strings behind it do not overlap |
| AddrSpaces.ZeroWord | code/userprog/addrspace.cc:171-195 | where the segments end below the arguments the table ends in a zero word, which relies on zeroed pages |
| AddrSpaces.WordNotZero | code/userprog/addrspace.cc:192-194 | a one-byte segment in that word, behind its first byte, leaves the table without its end |
| AddrSpaces.EndlessHappens | code/userprog/addrspace.cc:97-199 | with all frames free, a program of one byte at address 1145 is loaded with one argument, and the word behind its pointer table is not zero |
| AddrSpaces.NoRoomHappens | code/userprog/addrspace.cc:123-196 | with all frames free, a program of no segments, a negative size of uninitialised data and one argument has no pages, and loading it overruns |
| AddrSpaces.OutsideHappens | code/userprog/addrspace.cc:153-170 | with all frames free, loading a program of one byte at address 1152 overruns its nine pages |
| Arguments.PlaceNext | code/userprog/addrspace.cc:176-189 | one turn of the loop places one argument and disturbs nothing placed before |
| AddrSpaces.AddrSpace.PlaceArgs | code/userprog/addrspace.cc:171-195 | all arguments are in place, and what lies below them is unchanged |
| AddrSpaces.AddrSpace.CopySegments | code/userprog/addrspace.cc:144-169 | overruns exactly when one of the segments is out of range; otherwise the address space is the old one with each segment copied over it in turn |
| AddrSpaces.AddrSpace.CopyFromBuffer | code/userprog/addrspace.cc:342-359 | the page-by-page copy is one flat write in the address space and touches no frame of another |
| AddrSpaces.AddrSpace.CopyFromFile | code/userprog/addrspace.cc:323-340 | overruns exactly when it has bytes to copy and reaches outside the address space or in front of the file; otherwise it is one flat write, as far as the file goes; in every case no frame of another address space changes |
| AddrSpaces.AddrSpace.CopyFilePages | code/userprog/addrspace.cc:323-340 | the loop leaves the page table exactly when the range ends behind the last page |
| AddrSpaces.AddrSpace.InitPageTable | code/userprog/addrspace.cc:231-257 | succeeds exactly when enough frames are free; then it takes distinct free frames, zeroed; otherwise it takes none |
| AddrSpaces.AddrSpace.Free | code/userprog/addrspace.cc:75-86 | gives back exactly the frames of the address space |
| AddrSpaces.AddrSpace.Translate | code/userprog/addrspace.cc:370-408 | the frame and the offset, or an address error exactly outside the address space; sets the use bit and, for a write, the dirty bit of that page only |
| AddrSpaces.AddrSpace.StoreAt | code/userprog/addrspace.cc:181-184 | a store through Translate is one flat write in the address space and touches no frame of another |
| AddrSpaces.AddrSpace.ReadMem | code/machine/translate.cc:84-118 | the bytes of the address space; fails exactly when the address is not aligned or not mapped |
| AddrSpaces.AddrSpace.WriteMem | code/machine/translate.cc:133-162 | one flat write in the address space that touches no frame of another; fails, with memory unchanged, exactly when the address is not aligned or not mapped |
| AddrSpaces.AddrSpace.StringUser2System | code/userprog/utils.cc:29-44 | the bytes up to the first zero; nothing exactly when there is none before the end of the address space |
| AddrSpaces.AddrSpace.ReadArgv | code/userprog/exception.cc:263-276 | the strings that the words of the table point to; nothing exactly when a word is not there or points to no string |
| VirtualMemory.ViewWrite | code/machine/translate.cc:180-245 | a write within a frame is, seen through the page table, a write at one place |
| VirtualMemory.ViewFrame | code/machine/translate.cc:180-245 | an address space does not see changes to frames that are not its own |
| FrameOwnership.OneOwner | code/userprog/addrspace.cc:75-86 | over every run of loads, teardowns, writes and failures of these, a frame is marked exactly when a page of a live address space is in it, and then one page of one only |
| FrameOwnership.Isolation | code/userprog/addrspace.cc:231-257 | nothing that happens to one address space is seen by another |
| FrameOwnership.RunIsolation | code/userprog/addrspace.cc:231-257 | over every run, an address space keeps its frames, and its memory is what its own writes, one after another, make of it |
| FrameOwnership.EventKeeps | code/userprog/addrspace.cc:75-86 | every such event keeps the invariant |
| FrameOwnership.LoadEvent | code/userprog/addrspace.cc:97-199 | a load is such an event, whether it succeeds or fails |
| FrameOwnership.TeardownEvent | code/userprog/addrspace.cc:75-86 | so is the destructor |
| FrameOwnership.WriteEvent | code/machine/translate.cc:133-162 | so is a store by the program, and one that fails is nothing |
| HashTables.HashTable.Insert | code/lib/hash.cc:101-114 | adds one item with a new key; items stay where they hash to, keys stay unique, and items do not exceed three times the buckets |
| HashTables.HashTable.ReHash | code/lib/hash.cc:125-141 | four times the buckets, the same items, each where it hashes to |
| HashTables.HashTable.Find | code/lib/hash.cc:178-182 | finds the item with the key exactly when there is one, looking in one bucket only |
| HashTables.HashTable.Remove | code/lib/hash.cc:193-205 | takes out the item with the key, and no other; the key is gone |
| HashTables.HashTable.constructor | code/lib/hash.cc:28-34 | an empty table |
| HashTables.HashTable.FindInBucket | code/lib/hash.cc:154-167 | the position of the key in the bucket, or -1 exactly when it is not there |
| HashTables.HashTable.FindNextFullBucket | code/lib/hash.cc:228-236 | the next bucket with an item, skipping only empty ones |
| HashTables.HashIterator.constructor | code/lib/hash.cc:302-310 | every item of the table is still to be met, once |
| HashTables.HashIterator.Next | code/lib/hash.cc:317-328 | passes the item at hand and no other |
| HashTables.HashIterator.Item | code/lib/hash.cc:302-328 | the item at hand is the first still to be met |
| HashTables.VisitAll | code/lib/hash.cc:302-328 | the iterator, run until it is done, meets every item of the table exactly once |
| HashTables.FlatIsBag | code/lib/hash.cc:302-328 | the order of the iterator has every item of the table just as often |
| HashTables.NotFull | code/lib/hash.cc:106-108 | the test for growing is exact |

## Left out

- The file system that forwards to UNIX, its table of open files, and sockets: thin forwarding.
- Console, network, post office and host routines: wrappers over the host.
- The assembly of SWITCH, stacks and saved registers: a switch is one step that changes the current thread.
- Dispatch of system calls: one branch each; only the loop of ExecV that reads the arguments is modelled.
- coff2noff and the NOFF header with its byte order: the segments of a program are parameters of Load.
- Crashes in the middle of an operation, concurrent use of the file system, and writing through a handle on a file that has been removed: the file system excludes them (code/filesys/filesys.cc:31-40).
- The TLB: no kernel code here fills it.
- Deallocation, debug printing, and byte swapping on big-endian hosts.
- The other instructions of the simulator, among them SRL and SRLV, which shift a signed value.
- The interrupt level, the timer and yielding on return from a handler: who runs next is left open in every run instead.
- Linked list nodes: lists are sequences, so update in place and sharing of nodes are not modelled; the search of SortedList::Insert is.
- Buffers of file contents are values that methods return or take, not memory shared with the caller.
- FileSystemRuns.RunHeld: no file is removed while a handle on it is kept open.
- OpenFiles.OpenFile.WriteAt: the buffer holds at least the bytes that are transferred, and after an overrun nothing is said of the disk.
- SynchLists.NothingLost: does not model the assertion of List::Append that an item is not on the list already, which is the duty of the caller.
- ProcessTables.StepKeeps: calls of Join that are refused change nothing and are not steps.
- Unaligned.Machine.StoreUnaligned: pages are writable.
- AddrSpaces.AddrSpace.Load: the program fits physical memory, as the source asserts; the offset of a segment in the file, a C integer, does not overflow while it is copied. A segment at a negative address counts as an overrun at its first access, also where that access meets the frame next to its own.
- AddrSpaces.AddrSpace.Translate: all pages of an address space are valid and writable, as InitPageTable makes them, so the exception for read-only pages does not arise; the column of virtual page numbers, which equals the index, is left out.
- Interrupts.Run: the kinds of interrupts and what handlers do besides scheduling interrupts are left out, and the tick counters, which are C integers, do not overflow.
- HashTables.HashTable.Insert: the number of buckets does not overflow.
