# A verified model of the kernel's paging, scheduling, synchronisation, mailbox and file system code

This project models six parts of a small teaching kernel written in C and proves what they promise.

* **Paging** (`Paging`, `PagingProofs`, `PagingRuns`, `PagingStack`, `PagingCalls`, `Memory`). A pool of 35 frames
  caches process images that live on disk. `Paging` is the machine as a state with small steps: user
  loads and stores as the hardware does them (two-level walk, accessed and dirty bits), and the fault
  handler split into take or evict, write back, claim and zero, read in, map, with the accesses of
  other processes in between. `PagingRuns` proves that all this behaves like one flat private memory
  per process, that frames are never shared, and that the handler always finishes; `PagingStack` adds
  the stacks, which start as zeros. The class in
  `Memory` has the code's loops and arrays; its methods are proved to move the machine by those steps.
* **Scheduler** (`Scheduling`, `Sync`, `SyncRuns`). PCBs are heap nodes whose one `next` field serves
  both the circular ready ring and the null-terminated wait queues. The methods are proved to act on
  sequences (rotate, drop the head, append, pop), the threads to be partitioned over the lists, and
  round robin to be exact. `Sync` has the locks, condition variables, semaphores and barriers of
  `sync/thread.c`, one critical section per method; `SyncRuns` has the theorems about their runs.
* **Mailbox monitor** (`Monitor`, `MonitorRuns`, `Nested`). The senders and receivers of the mailbox on
  the spinlock primitives, for any number of threads interrupted anywhere: no lost wake-up, FIFO, no
  spinlock deadlock, progress. `Nested` is the same monitor on `sync/thread.c` and decides when wake-ups
  can get lost there: exactly when the caller is not in a critical section already.
* **Mailbox ring** (`Mailbox`, `MailboxRuns`, `Keyboard`). The circular byte buffer with framed messages,
  and the buffer put into the monitor: byte for byte, in every interleaving.
* **Files** (`Bitmap`, `Blocks`, `Stale`, `Files`). The bitmap allocator, inode resizing, and the
  block-splitting read and write loops. `Blocks` states the effect of each operation on values and when
  blocks are conserved, `Stale` what is conserved while freed blocks are still in their slots; the class
  in `Files` has the arrays and the disk.
* **Directories** (`Directory`, `Entries`, `Directories`, `DirectoryRuns`). `Directory` is about trees and
  link counts, `Entries` reads the tree off inodes and disk bytes, the methods of `Directories` are the
  code on the class of `Files`, with recursive removal, and `DirectoryRuns` says on which runs trees, link
  counts and blocks all stay right.

Where C works in place the model does too: arrays for page tables, frame records, the ring buffer,
bitmaps, inodes and disk blocks, and heap nodes for PCBs, with loops where the source has loops.
Ghost sequences and views tie them to the values that the theorems are about.

Six properties one might expect are false of the code. They are stated with the exact condition:

* `resize_inode` that lowers the block count frees a block and leaves its number in the inode, and one
  that runs out of space keeps in memory what it took, but not on disk. `Blocks.ResizeConservesIff`
  gives the condition on the state before the call, `Blocks.ShrinkExample` an input.
* `remove_directory_entry` shrinks the directory with `resize_inode` and so does the same. A removal keeps
  the blocks conserved, and with them the trees and link counts on the disk, if and only if the block
  count of that directory does not fall (`DirectoryRuns.RemovalConservesIff`), that is, if its size is no
  multiple of 512 or is 4096 (`DirectoryRuns.BlockCountFalls`); what is freed below the removed entry does
  no harm. As long as removals meet that, and writes the condition on their resize, link counts are right on
  all runs (`DirectoryRuns.RunKeepsLinks`).
  Otherwise, with a root of 32 entries in the blocks 0 and 1, an unlink and a mkdir make root and the new
  directory share block 1 (`DirectoryRuns.SharingExample`, `DirectoryRuns.SharedBlock`), and the next
  file that is created in the root is named twice, with one link (`DirectoryRuns.SharedBreaks`).
* A file that was just made is found under its name if and only if the name has 13 characters at most and
  begins no name before it (`Entries.MadeIsFound`): longer names are cut when stored, but not when looked up.
* `get_entry_and_location` computes an extent for any address. It is an extent of the image if and only
  if the address is (`PagingCalls.ExtentIffImage`); `page_fault_handler` does not look.
* `condition_wait` of `sync/thread.c` at critical-section depth 0 has a gap in which a wake-up is lost
  (`Nested.GapLosesWakeup`); `Nested.DepthDecides` has both directions.
* `semaphore_up` wakes a waiter only when the counter has come back to 0, so with n waiters n ups wake
  one (`SyncRuns.EarlyUpsStrand`). `SyncRuns.ExactIff` says for which runs waiters and counter agree.

## Assumptions

* Swap extents of different processes are disjoint, as the note at `paging/memory.c:4-9` asks. Faults
  are on absent pages inside the image.
* The two stack pages of a process lie in one page table, as `paging/memory.c:260-267` relies on.
* `block` needs a second thread in the ready ring. Critical sections (`interrupts/entry.S:215-226`) are
  atomic up to the context switch, and their nesting depth belongs to the thread.
* The two-argument `block` that `sync/thread_spinlock.c` calls enqueues the caller and releases the
  spinlock in one step; it is not part of this model.
* The message header has 4 bytes, which is also `sizeof(m)` on i386. The random victim is an arbitrary one.
* `INODE_NDIRECT` is 8, `FSE_OK` is 0 and the other error codes are negative. Block numbers count from
  the superblock. Directory entries have 16 bytes: `inode_t` is taken to be a two-byte little-endian number.
* The operands of `+` in `create_directory` (`filesystem/fs.c:348`) are evaluated from left to right.

## Model

| member | source | states |
|---|---|---|
| PagingRuns.PagingRefinesFlatMemory | paging/memory.c:108-155 | in every run of loads, stores, set-ups and handler steps in any interleaving, a load inside the image gives the value the process last stored there, else the word of the original image |
| PagingStack.StackRefinesFlatMemory | paging/memory.c:260-267 | in every such run a load from the stack gives the value the process last stored there, else zero |
| PagingStack.NextPendingZero | paging/memory.c:153 | the frames of the stack of a process that is being set up hold zeros, whatever runs in between |
| PagingRuns.RunKeepsInv | paging/memory.c:295-341 | every state of every run meets the paging invariant, and disk words outside all images never change |
| PagingRuns.FrameOwnedOnce | paging/memory.c:150-154 | an unpinned frame that the handler is not working on is mapped by exactly one user page, the one in its record |
| PagingRuns.NoSharing | paging/memory.c:108-155 | no two user pages share a frame, and user memory overlaps no directory or table |
| PagingRuns.PinnedForever | paging/memory.c:115-128 | in a run a pinned frame is never evicted or handed out again, and its record stays |
| PagingRuns.HandlerProgress | paging/memory.c:108-155 | while memory_lock is held some step is possible, and every possible step brings its release nearer |
| PagingRuns.FaultServed | paging/memory.c:331-340 | after the mapping step the faulting page is mapped to the frame just filled, and clean |
| PagingRuns.NextDisk | paging/memory.c:145-148 | a step writes to disk only inside the images of existing processes |
| PagingProofs.LoadKeeps | paging/memory.c:44-58 | a hardware load returns the word of the flat memory and changes no process's memory, though it sets accessed bits |
| PagingProofs.StoreKeeps | paging/memory.c:139 | a hardware store changes that one word of that one process, and the entry of the page is dirty afterwards, as eviction relies on |
| PagingProofs.EvictKeeps | paging/memory.c:137-143 | reading the dirty bit and clearing the entry keeps every process's memory, the victim's page being in the frame or on disk |
| PagingProofs.WriteBackKeeps | paging/memory.c:145-148 | writing the dirty page back keeps every process's memory and the invariant |
| PagingProofs.TakeFreeKeeps | paging/memory.c:110-113 | taking the next frame of the pool keeps memory and invariant |
| PagingProofs.ClaimKeeps | paging/memory.c:150-154 | recording the owner and zeroing the frame keeps memory and invariant |
| PagingProofs.ReadInKeeps | paging/memory.c:334-335 | reading the page in keeps memory and invariant |
| PagingProofs.MapInKeeps | paging/memory.c:337-340 | mapping the page keeps memory and invariant |
| PagingProofs.GiveUpKeeps | paging/memory.c:123-128 | giving up when every frame is pinned keeps memory and invariant |
| PagingProofs.ExitKeeps | paging/memory.c:303-314 | a faulting process that is refused exits without an effect on any memory |
| PagingProofs.SetUpKeeps | paging/memory.c:245-287 | a process whose tables are complete can be added, with its memory as on disk and all others unchanged |
| PagingProofs.WalkAgrees | paging/memory.c:44-58 | the hardware walk finds exactly the entry that the tables of the invariant name |
| PagingProofs.ExtentsApart | paging/memory.c:87-93 | the disk extents of two different pages do not overlap |
| PagingCalls.ExtentsTile | paging/memory.c:85-93 | every word of an image lies in exactly one page at exactly one place |
| PagingCalls.ExtentsAdjoin | paging/memory.c:90-93 | extents begin at swap_loc, follow each other without a gap, and end at swap_loc + swap_size, with a short last page |
| PagingCalls.ExtentIffImage | paging/memory.c:81-95 | the extent computed for an address is part of the image if and only if the address is in the image |
| PagingCalls.ObtainedKeeps | paging/memory.c:108-155 | the whole of get_memory keeps every process's memory |
| PagingCalls.ObtainedPin | paging/memory.c:108-155 | a frame obtained for a directory, table or stack page is zero, and no table of a process being set up changed |
| PagingCalls.TableAdded | paging/memory.c:165-173 | a new table is linked and empty, and everything built before is still there |
| PagingCalls.StackAdded | paging/memory.c:262-267 | a stack page is mapped to its own pinned frame, and everything built before is still there |
| PagingCalls.ImageAdded | paging/memory.c:278-283 | an entry of the image is absent, at the slot the fault handler will use, and everything built before is still there |
| PagingCalls.BuiltReady | paging/memory.c:245-287 | what the loops of setup_page_table build is an address space the machine accepts |
| Memory.DirectoryIndex | paging/memory.c:44-47 | the directory slot is the page number divided by 1024 |
| Memory.TableIndex | paging/memory.c:55-58 | the table slot is the page number modulo 1024 |
| Memory.MemoryManager.constructor | paging/memory.c:36-41 | before any frame is handed out the invariant holds and every run can start |
| Memory.MemoryManager.UpdateEntry | paging/memory.c:67-71 | exactly one word of memory changes, to base and masked flags |
| Memory.MemoryManager.GetEntryAndLocation | paging/memory.c:81-95 | the table of the page, and for any address the extent of 32-bit arithmetic; for image pages it is the page's own, cut off at the end of the image |
| Memory.MemoryManager.CollectUnpinned | paging/memory.c:115-122 | the list has exactly the unpinned frames, each once, in order; it is empty exactly if all are pinned |
| Memory.MemoryManager.EvictFrame | paging/memory.c:135-148 | one frame is evicted, with a write-back if and only if it is dirty |
| Memory.MemoryManager.WriteVictim | paging/memory.c:145-148 | the words of the frame are on disk at the extent of the victim's page |
| Memory.MemoryManager.TakeFreeFrame | paging/memory.c:109-113 | the next frame of the pool is taken |
| Memory.MemoryManager.ClaimFrame | paging/memory.c:150-154 | record and zeroed frame |
| Memory.MemoryManager.GetMemory | paging/memory.c:108-155 | a free frame, or any unpinned one evicted, is claimed; or all are pinned and the caller exits |
| Memory.MemoryManager.LoadAndMap | paging/memory.c:334-340 | the page is read in and mapped |
| Memory.MemoryManager.PageFaultHandler | paging/memory.c:295-341 | every process's memory is the same after a fault; the process resumes exactly if the access is legal and a frame can be had, with its page mapped |
| Memory.MemoryManager.KernelFrame | paging/memory.c:182-186 | a zeroed frame for the kernel, and no other of its frames changes |
| Memory.MemoryManager.MapKernelPage | paging/memory.c:187-198 | one page is mapped to itself, the screen also for users, and the directory keeps its one table |
| Memory.MemoryManager.InitMemory | paging/memory.c:181-200 | the first 4 MB are mapped to themselves and the directory has no other table, so that any process whose image ends below the stack can be set up |
| Memory.MemoryManager.CreateTable | paging/memory.c:165-173 | an absent table is obtained and linked, or the caller exits, memory unchanged either way; of a present one the entry is returned and rewritten |
| Memory.MemoryManager.NewDirectory | paging/memory.c:251-257 | a directory of its own with the kernel's entries |
| Memory.MemoryManager.CopyKernelEntry | paging/memory.c:256 | one entry is copied, and nothing else changes |
| Memory.MemoryManager.CopyKernelEntries | paging/memory.c:255-257 | all 1024 entries are the kernel's |
| Memory.MemoryManager.AddStackPage | paging/memory.c:263-266 | one more stack page is built |
| Memory.MemoryManager.AddStack | paging/memory.c:259-267 | the stack's table and both its pages are built |
| Memory.MemoryManager.FillEntry | paging/memory.c:279-282 | one more page of the image has its absent entry |
| Memory.MemoryManager.FillTable | paging/memory.c:278-283 | the inner loop fills one table, up to 1024 pages or the end of the image |
| Memory.MemoryManager.LinkImageTable | paging/memory.c:276 | one more table of the image is linked |
| Memory.MemoryManager.AddImageTable | paging/memory.c:275-284 | one pass of the outer loop |
| Memory.MemoryManager.AddImage | paging/memory.c:269-284 | all pages of the image have absent entries |
| Memory.MemoryManager.SetupPageTable | paging/memory.c:245-287 | the new process has every image page absent in the slot that its fault will use and reads its image from disk; a thread gets the kernel's directory; no other memory changes |
| Scheduling.Scheduler.constructor | scheduler/scheduler.c:10-13 | a linked ring of runnable threads is a valid scheduler state |
| Scheduling.Scheduler.RemoveCurrent | scheduler/scheduler.c:30-36 | the current thread leaves the ring, which stays circular and doubly linked, and its pointers are cleared |
| Scheduling.Scheduler.Schedule | scheduler/scheduler.c:20-42 | rotation, or removal of the head if it blocked or exited |
| Scheduling.Scheduler.Yield | scheduler/scheduler.c:11-13 | the ring is rotated, all invariants kept |
| Scheduling.Scheduler.Exit | scheduler/scheduler.c:61-64 | the head is gone for good; the last thread's exit halts |
| Scheduling.Scheduler.LastOf | scheduler/scheduler.c:74-77 | the walk ends at the last member of the queue |
| Scheduling.Scheduler.Append | scheduler/scheduler.c:69-79 | the current thread is linked behind the queue, the ring still in shape |
| Scheduling.Scheduler.Block | scheduler/scheduler.c:68-81 | the head of the ring becomes the last of the queue; partition, ring and all queues in shape |
| Scheduling.Scheduler.Relink | scheduler/scheduler.c:88-96 | the pointers of ring and queue after the first waiter moved |
| Scheduling.Scheduler.Unblock | scheduler/scheduler.c:87-97 | the first of the queue becomes the last of the ring; partition, ring and all queues in shape |
| Scheduling.Scheduler.OneListEach | scheduler/scheduler.c:20-97 | in every valid state each thread is in the ring, in one wait queue or exited, as its state field says |
| Scheduling.RoundRobin | scheduler/scheduler.c:20-42 | a thread at distance d runs at exactly the d-th call of scheduler(), whoever blocks, exits or is unblocked in between |
| Scheduling.WokenRunsAfterAll | scheduler/scheduler.c:87-97 | an unblocked thread runs after exactly as many calls as the ring had threads |
| Sync.LockAcquire | sync/thread.c:22-37 | the new lock state, and the caller off the ring exactly if the lock was taken |
| Sync.LockRelease | sync/thread.c:39-49 | hand-off to the first waiter, or the lock free |
| Sync.ConditionWait | sync/thread.c:62-69 | nested in a critical section: release and enqueue in one step, up to the context switch |
| Sync.ConditionSignal | sync/thread.c:72-79 | the first waiter joins the ring, or nothing happens |
| Sync.ConditionBroadcast | sync/thread.c:82-89 | all waiters join the ring, in order |
| Sync.SemaphoreUp | sync/thread.c:98-108 | the new counter and queue, and who was woken |
| Sync.SemaphoreDown | sync/thread.c:110-118 | the new counter and queue, and whether the caller blocked |
| Sync.BarrierWait | sync/thread.c:135-149 | the completing arrival releases all waiters in order and resets the counter; others wait |
| SyncRuns.MutualExclusion | sync/thread.c:22-69 | in every reachable state, with condition_wait in one step or with its gap at depth 0, one thread at most is inside, and one is exactly if the lock is LOCKED; waiters only while LOCKED |
| SyncRuns.NoBarging | sync/thread.c:39-69 | the lock is granted in arrival order, to as many as arrived or one more than were released, also on runs through that gap |
| SyncRuns.HandOff | sync/thread.c:39-69 | the thread at queue index k owns the lock from exactly the (k+1)-th release on, also on runs through that gap |
| SyncRuns.SemaphoreSafety | sync/thread.c:98-118 | completed downs never exceed the initial value plus the ups |
| SyncRuns.ExactIff | sync/thread.c:98-108 | waiters match the counter all along a run exactly if no up of it finds a counter below -1 |
| SyncRuns.EarlyUpsStrand | sync/thread.c:98-108 | n ups on n waiters wake one |
| SyncRuns.BarrierGenerations | sync/thread.c:135-149 | exactly the complete generations have passed, in arrival order; the rest wait, and the counter counts them |
| SyncRuns.BarrierNeverOpens | sync/thread.c:127-149 | a barrier for less than one thread lets nobody pass |
| Mailbox.HeaderRoundTrip | mailbox/mbox.c:155-162 | the header tells the size of the body |
| Mailbox.StreamAppend | mailbox/mbox.c:184-192 | appending a message appends its bytes to the stream |
| Mailbox.SliceGrows | mailbox/mbox.c:187-189 | bytes written behind a slice of the ring, wrapped or not, lengthen it and spoil nothing |
| Mailbox.SliceDrops | mailbox/mbox.c:163-168 | a slice without its front is the slice behind it |
| Mailbox.Pushes | mailbox/mbox.c:184-192 | the ring holds the old messages and the new one |
| Mailbox.Pops | mailbox/mbox.c:155-169 | the bytes at tail are the oldest message, and behind them the ring holds the rest |
| Mailbox.Mailbox.SpaceAvailable | mailbox/mbox.c:33-46 | the buffer size minus headers and bodies of all queued messages, head == tail resolved by count |
| Mailbox.Mailbox.Stat | mailbox/mbox.c:133-140 | the number of messages and the free space |
| Mailbox.Mailbox.CopyIn | mailbox/mbox.c:187-189 | the bytes are in the ring, and all others are unchanged |
| Mailbox.Mailbox.CopyOut | mailbox/mbox.c:158-165 | the bytes of the ring are in the message buffer |
| Mailbox.Mailbox.Send | mailbox/mbox.c:184-192 | the message joins the end of the queue |
| Mailbox.Mailbox.Recv | mailbox/mbox.c:155-169 | the oldest message leaves the queue, and the caller has it byte for byte |
| Keyboard.PutChar | mailbox/keyboard.c:293-304 | with the mailbox to itself: the character is queued if it fits and else dropped |
| Keyboard.GetChar | mailbox/keyboard.c:278-287 | the oldest character is returned and removed |
| Monitor.StepKeeps | sync/thread_spinlock.c:72-133 | every step of every thread keeps the monitor invariant |
| Monitor.LockSpinStep | sync/thread_spinlock.c:72-94 | who holds what is right after a step on the lock's spinlock |
| Monitor.HandOverStep | sync/thread_spinlock.c:84-94 | the lock passes to the first waiter alone |
| Monitor.ConditionStep | sync/thread_spinlock.c:107-113 | who holds what is right after a step on a condition's spinlock |
| Monitor.WakeStep | sync/thread_spinlock.c:126-133 | the broadcast wakes one waiter after the other |
| Monitor.CheckCause | mailbox/mbox.c:150-195 | an update of the messages leaves nobody waiting without cause, except those about to be woken |
| Monitor.WakeCause | sync/thread_spinlock.c:126-133 | a broadcast ends when nobody is left, or on the way, that waits for it |
| MonitorRuns.MutualExclusion | sync/thread_spinlock.c:46-94 | in every reachable state one thread at most is in the monitor or holds a given spinlock |
| MonitorRuns.NoWakeupIsLost | mailbox/mbox.c:150-195 | receivers are blocked only while there is no message, unless a sender is about to broadcast; a blocked sender needs more space than there is, unless a receiver is |
| MonitorRuns.FirstInFirstOut | mailbox/mbox.c:143-197 | the received messages are a prefix of the sent ones, and the rest is queued and fits |
| MailboxRuns.RingWaitsIff | mailbox/mbox.c:33-46 | the tests on head, tail and count are the tests on the queue of messages |
| MailboxRuns.TransferAgrees | mailbox/mbox.c:155-192 | writing at head and reading at tail do to the ring what the monitor does to the queue |
| MailboxRuns.ByteForByte | mailbox/mbox.c:143-197 | in every interleaving the bodies read from the ring are those sent, byte for byte and in order, and the ring holds the rest |
| MonitorRuns.SpinOrder | sync/thread_spinlock.c:107-133 | a chain of threads spinning for each other's spinlocks has three members at most, and no cycle |
| MonitorRuns.Progress | sync/thread_spinlock.c:72-133 | as long as a call is neither finished nor waiting on a condition, some thread can take a step |
| MonitorRuns.QuietIsJustified | mailbox/mbox.c:143-197 | when nothing moves, every open call has to wait, and senders and receivers are never stuck against each other |
| Nested.NestedCallsAreSafe | mailbox/keyboard.c:278-287 | a call made within a critical section loses no wake-up, whatever the depth of the others |
| Nested.GapLosesWakeup | sync/thread.c:62-69 | at depth 0 a receiver sleeps next to a message while no thread can go on |
| Nested.DepthDecides | sync/thread.c:62-69 | wake-ups are never lost on any run if and only if the calls are made within critical sections |
| Bitmap.GetFreeEntry | filesystem/fs.c:755-790 | the least free entry below 256 is taken and only its bit set; -1 exactly if all are set |
| Bitmap.FreeBitmapEntry | filesystem/fs.c:799-836 | only that bit is cleared; entries from 256 on are refused |
| Bitmap.CheckBit | filesystem/fs.c:81-88 | the bit of the entry in the allocator's order |
| Bitmap.BitmapUsedSpace | filesystem/fs.c:53-63 | the number of set bits |
| Bitmap.CountWrite | filesystem/fs.c:53-63 | setting or clearing a bit moves the count by one exactly if it changes the bit |
| Bitmap.LowCounts | filesystem/fs.c:56-60 | counting a byte from the least significant bit gives the same number |
| Blocks.RangesOverlap | filesystem/fs.c:845-867 | inode and data blocks coincide for the inodes from 496 on only |
| Blocks.HandedOutApart | filesystem/fs.c:845-867 | nothing the allocator hands out shares a block |
| Blocks.UsedSpaceIsSlots | filesystem/fs.c:53-63 | the used space is the number of allocated slots of live inodes |
| Blocks.GrowConserves | filesystem/fs.c:118-125 | filling holes with free blocks keeps the blocks conserved |
| Blocks.ResizeConservesIff | filesystem/fs.c:111-136 | a resize keeps bitmap and slots in step, in memory and on disk, if and only if it is too big, or there are blocks enough and none beyond the new size, or the disk is full at once |
| Blocks.ShrinkExample | filesystem/fs.c:126-130 | a file cut from two blocks to one keeps the freed block in its slot |
| Blocks.ShrinkLoses | filesystem/fs.c:126-130 | every resize that lowers the block count does |
| Blocks.FullLoses | filesystem/fs.c:121-124 | a resize that runs out of blocks is harmless exactly if there was no free block at its start |
| Blocks.CreateConserves | filesystem/fs.c:139-156 | create_inode keeps the blocks conserved |
| Blocks.FreeConserves | filesystem/fs.c:158-167 | free_inode keeps the blocks conserved |
| Blocks.RunConserves | filesystem/fs.c:111-167 | in every run whose resizes meet that condition no block is leaked or shared, and the used space is the number of slots |
| Blocks.LeastTake | filesystem/fs.c:118-125 | every hole gets the least block that is free at its turn |
| Stale.LooseConserved | filesystem/fs.c:126-130 | when all but stale slots is conserved, everything is conserved exactly if no slot is stale |
| Stale.ResizeLoose | filesystem/fs.c:111-136 | a resize leaves exactly the dropped blocks of its inode stale and conserves the rest |
| Stale.FreeLoose | filesystem/fs.c:158-167 | an inode that is freed takes its stale slots along, and frees no block of another |
| Stale.ResizeKeepsApart | filesystem/fs.c:118-125 | after a resize the blocks of the file differ from each other and from those in use by other files, and kept bytes stay where they were |
| Files.FileSystem.constructor | filesystem/fs.c:433-442 | a fresh file system conserves its blocks |
| Files.FileSystem.BlockModify | filesystem/block.c:64-79 | one block changes, in the given part only |
| Files.FileSystem.BlockReadPart | filesystem/block.c:87-101 | the given part of the block arrives, the rest of the buffer is unchanged |
| Files.FileSystem.SaveBitmaps | filesystem/fs.c:43-46 | the bitmaps on disk are those in memory, and no other block changed |
| Files.FileSystem.LoadBitmaps | filesystem/fs.c:48-51 | the bitmaps in memory are those on disk |
| Files.FileSystem.SaveInode | filesystem/fs.c:76-79 | only the 32 bytes of the inode change on disk |
| Files.FileSystem.ResizeSlot | filesystem/fs.c:119-130 | one round of the loop |
| Files.FileSystem.ResizeSlots | filesystem/fs.c:118-131 | holes below the new size are filled in order and blocks above it freed, until the disk is full |
| Files.FileSystem.ResizeInode | filesystem/fs.c:111-136 | the effect on inode, bitmaps and saved bitmaps, in all three cases, with the least free blocks taken, and data blocks untouched |
| Files.FileSystem.CreateInode | filesystem/fs.c:139-156 | the least free inode, empty and without blocks |
| Files.FileSystem.FreeInode | filesystem/fs.c:158-167 | the blocks in all slots and the inode are free |
| Files.FileSystem.ReadPiece | filesystem/fs.c:202-217 | what arrives is the file's bytes at that position |
| Files.FileSystem.DbRead | filesystem/fs.c:187-220 | exactly the slice of the file from the start position, cut off at its end, whatever the alignment |
| Files.NextPiece | filesystem/fs.c:202-217 | the pieces join, stay within a block and end with the block or the transfer |
| Files.FileSystem.WritePiece | filesystem/fs.c:246-261 | those bytes of the file change and no others, and no block of another file |
| Files.FileSystem.WriteAll | filesystem/fs.c:243-263 | all bytes from the start position on are the buffer's |
| Files.FileSystem.DbWrite | filesystem/fs.c:230-264 | returns min(size, 4096 - start), or 0 if that is negative; the file is its old front followed by the written bytes, and every other file is unchanged, also while other inodes have stale slots; when it fails nothing is lost |
| Files.WriteThenRead | filesystem/fs.c:187-264 | any range read after a write is the slice of old front and written bytes |
| Directory.RemovedFile | filesystem/fs.c:300-335 | a regular file is freed if and only if all its links lay in the removed subtree or were the removed entry, and else keeps exactly the others |
| Directory.DroppedSound | filesystem/fs.c:321-333 | dropping one entry keeps trees and link counts right |
| Directory.BelowByEntry | filesystem/fs.c:306-310 | what is below a directory is what is below its entries: the recursion reaches the subtree and nothing else |
| Directory.EmptyingStep | filesystem/fs.c:308 | each recursive call empties the directory by exactly one entry and its subtree |
| Directory.RemoveDone | filesystem/fs.c:315-333 | dropping the emptied directory completes the removal |
| Directory.LinkedSound | filesystem/fs.c:269-294 | a new link is counted, and trees stay trees |
| Directory.WithDirectorySound | filesystem/fs.c:339-357 | a new directory hangs in the tree, and no file's count changes |
| Entries.EntryRoundTrip | filesystem/fs.c:271-277 | an entry reads back as its inode number and its name, cut to 13 bytes |
| Entries.EntriesAppend | filesystem/fs.c:286 | an entry written behind whole entries is the last one of the directory |
| Entries.MadeIsFound | filesystem/fs.c:873-884 | looking up the name of an entry just made finds it if and only if it has 13 characters at most and no earlier entry begins with it |
| Entries.PrefixEnds | filesystem/fs.c:879 | a byte that differs within the length of the name, or the end of the field, means that the string in the field does not begin with it |
| Directories.BeginsWith | filesystem/fs.c:879 | whether the string in the name field begins with the name |
| Directories.FindName | filesystem/fs.c:873-884 | the inode of the first entry on disk whose name begins with the given one, or -1 |
| Entries.ReducedNodes | filesystem/fs.c:169-177 | one link less; without links, or if a directory, the node is gone, and all others are as they were |
| Entries.ReducedTidy | filesystem/fs.c:169-177 | the other inodes keep their blocks, and a freed one its stale slots no longer |
| Entries.ShrinkTidy | filesystem/fs.c:330-332 | shrinking a directory cannot fail, as the source says; it leaves stale what it drops |
| Entries.GrowConsistent | filesystem/fs.c:282-285 | growing by an entry takes a block for the one hole there can be, or fails and changes nothing; conserved either way |
| Entries.CreatedConsistent | filesystem/fs.c:139-156 | a file without links is added to the tree, blocks conserved |
| Entries.FreedConsistent | filesystem/fs.c:158-167 | one node is gone from the tree, blocks conserved |
| Directories.CopyEntry | filesystem/fs.c:326 | all 16 bytes of one entry are copied, and no other entry changes |
| Directories.CopyOthers | filesystem/fs.c:321-329 | what is copied are the entries without the first one for id, in order, and its links are reduced once |
| Directories.WriteEntries | filesystem/fs.c:331-333 | the directory consists of the entries that were left; all other files keep their bytes |
| Directories.DropEntry | filesystem/fs.c:315-333 | on disk, dir loses its first entry for id and id one link; which slots become stale |
| Directories.EmptyDirectory | filesystem/fs.c:302-311 | the loop over a snapshot of the entries removes everything but "." and ".." with all that is below, and leaves only slots of that directory stale |
| Directories.RemoveDirectoryEntry | filesystem/fs.c:300-335 | terminates; dir loses its first entry for id, exactly the directories of the subtree are freed, every other directory stays byte for byte, trees and link counts are right, and exactly the slots of dir beyond its new size become stale |
| Directories.AppendEntry | filesystem/fs.c:271-289 | the entry is the last one on disk, or the error is the one that size and free blocks call for and nothing changed |
| Directories.CreateDirectoryEntry | filesystem/fs.c:269-294 | the entry is appended and counted, or nothing changes; when which, and how many blocks it takes |
| Directories.CreateFile | filesystem/fs.c:363-376 | the least free inode becomes a file with one link; without inode or room nothing changes |
| Directories.Link | filesystem/fs.c:701-711 | regular files get one more link, directories are refused |
| Directories.AddDots | filesystem/fs.c:348 | "." and ".." take one block together, or there is none and both fail |
| Directories.CreateDirectory | filesystem/fs.c:339-357 | the least free inode becomes a directory with "." and ".."; without inode or block nothing changes |
| Directories.MakeDirectory | filesystem/fs.c:631-645 | the new directory hangs in its parent; when its entry finds no room, it is freed again and the parent keeps one link too many; which of these happens when |
| Directories.CountedSound | filesystem/fs.c:637-641 | that link does no harm to trees and link counts of files |
| Directories.MakeFileSystem | filesystem/fs.c:434-449 | the root is inode 0 and its own parent, and everything is conserved and sound |
| DirectoryRuns.Perform | filesystem/fs.c:631-726 | the methods take the steps that the runs are about |
| DirectoryRuns.RemovalConservesIff | filesystem/fs.c:330-333 | a removal keeps blocks, trees and link counts right for what follows if and only if the block count of the directory does not fall |
| DirectoryRuns.BlockCountFalls | filesystem/fs.c:331 | it falls exactly if the size is a multiple of 512 other than 4096 |
| DirectoryRuns.WriteConservesIff | filesystem/fs.c:230-264 | a write to a file leaves the tree as it is, and the blocks conserved if and only if its resize is a safe one |
| DirectoryRuns.WriteFile | filesystem/fs.c:562-578 | writing a file is such a step |
| DirectoryRuns.RunKeepsLinks | filesystem/fs.c:230-376 | on every run of create, link, mkdir, write, unlink and rmdir with safe writes and without such a removal, every file counts the entries that name it, directories form trees, and blocks are conserved |
| DirectoryRuns.SharedBlock | filesystem/fs.c:330-357 | after such a removal, when the dropped block is the least free one, mkdir gives it to the new directory and back to the old one |
| DirectoryRuns.SharingExample | filesystem/fs.c:330-357 | a root with 32 entries in the blocks 0 and 1: unlink and mkdir make it share block 1 |
| DirectoryRuns.SharedBreaks | filesystem/fs.c:282-291 | two directories with one block: the file created next is named in both, no tree is sound, and its link count is too small |

## Left out

- TLB flushes, the SCSI driver and its errors, timers, random source, screen output: no-ops, a disk array, free choices, nothing.
- `identity_map`, which makes more entries like those of `init_memory`; what the kernel maps to itself is outside the frame ownership claims.
- Memory.MemoryManager.InitMemory: the value of SCREEN_ADDR is a parameter, and that the kernel's directory is the first frame is asked of the caller.
- Memory.MemoryManager.PageFaultHandler: faults outside the image, which the source serves with an extent that is not the image's (PagingCalls.ExtentIffImage).
- Memory.MemoryManager.SetupPageTable: an image that reaches the 4 MB region of the stack, where create_table finds the stack's table and the flag bits in its result become part of an address.
- Memory.MemoryManager.GetEntryAndLocation: sector numbers are not cut to 32 bits when the extent is added to swap_loc.
- Unaligned and byte accesses: loads and stores are aligned words. The value of PROCESS_STACK is a parameter.
- The termination of a process after `exit()`: its frames stay as they are, as in the source.
- The boot code, both entry.S files, kernel.c and the linking of the first PCBs: the scheduler starts from a linked ring.
- Scheduling.Scheduler.Block: blocking the only ready thread, which the source leaves without a ready ring.
- Sync.LockAcquire: a taken lock that the only ready thread asks for, for the same reason.
- Sync.SemaphoreDown: a blocking call of the only ready thread, for the same reason.
- Sync.BarrierWait: an arrival of the only ready thread that does not complete the barrier, for the same reason.
- Sync.ConditionWait: what follows when the caller is woken, and the gap at depth 0; SyncRuns and Nested have both.
- Scheduling.Scheduler.Dispatch: the stack switch; only the state field is modelled, as a helper.
- The methods of `sync/thread_spinlock.c` as loops: `spinlock_acquire` ends only when another thread acts, so the whole file is a transition system in `Monitor` and not a class.
- Monitor.StepKeeps: copying a message is one step there, since only the owner of the lock touches the ring; `Mailbox` has the loops.
- Nested.DepthDecides: nested calls are still interleaved between critical sections, which allows more runs than disabled interrupts do.
- `mbox_close`, which reinitialises a lock that others may hold, and `mbox_open`, which counts users only.
- Keyboard.GetChar: waiting for a message, which MonitorRuns is about, and a message of more than one byte in the keyboard's mailbox, which would not fit in the caller's buffer.
- Keyboard.PutChar: mbox_stat and mbox_send take the mailbox lock and so can wait, in an interrupt handler, and a sender between the two can fill the buffer; the method is one step with nobody else at the mailbox.
- The scan-code tables and shift handling of the keyboard.
- Files.FileSystem.DbWrite: what the bytes between the old end of the file and a start position behind it are (they are those of new blocks), and negative sizes.
- Files.WriteThenRead: a start position behind the end of the file.
- Files.FileSystem.DbRead: a negative size or position, with which the source would copy a negative number of bytes.
- Files.FileSystem.SaveInode: the byte layout of an inode on disk is a parameter, and `load_inode`, whose check indexes slots by bytes, is not modelled.
- The superblock, `fs_init`, `fs_open`, `fs_close`, `fs_stat`, `fs_lseek` and the file descriptor table.
- Paths (`name2inode_r`): the directory operations take inode numbers.
- Directories.RemoveDirectoryEntry: the entries "." and ".." themselves, and hard-linked directories, on which the recursion does not end; link counts of directories, which ".." never gives back.
- Directories.CreateDirectoryEntry: a start in a state with stale slots, whose blocks it may hand out; DirectoryRuns.SharedBlock shows what becomes of that. The bytes behind the zero of a name are a parameter.
- Directories.MakeDirectory: the working directory is a parameter, as it is for all operations on entries.
- I/O errors and crashes: the source makes no promise about the order of disk writes.
