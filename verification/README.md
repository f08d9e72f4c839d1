# MMZZOS: a verified model of the kernel's state machines

MMZZOS is a small x86 kernel written in C. This project models its three cores in Dafny and proves what
they promise, and where the code breaks such a promise it proves exactly when.

**Memory.** `bitmap.dfy` is the bitmap under every allocator. `paging.dfy` edits page tables through the
self-mapped page directory, over the two-level walk of section 4.3 of the Intel SDM, Volume 3A. `pages.dfy`
is `malloc_page` and `free_page` over two virtual and two physical bitmaps and the page map, from the state
`mem_init` leaves; `pagetables.dfy` shows that map to be what the walk finds. `arena.dfy` has the free lists
and headers of the slab allocator, `allocator.dfy` puts them on those pages and proves `malloc` and `free`;
`fork.dfy` copies an address space.

**Threads and processes.** `lists.dfy` and `list.dfy` are the intrusive lists, as sequences and with their
pointers. `minheap.dfy` is the heap of sleepers. `sched.dfy` is the scheduler; `machine.dfy`,
`semaphore.dfy`, `process.dfy` and `sleeping.dfy` make every kernel operation on threads a step of one
machine, `dying.dfy` the end of a kernel thread; `runs.dfy` and `queues.dfy` prove properties of all its
runs, `hanging.dfy` follows one of them; `switching.dfy` says what a switch of the processor leaves behind
and `effects.dfy` what each operation does to every thread and list; `kernel.dfy` writes the operations as the C code does, on the
fields of one object, and ties each of them to its step. `ioqueue.dfy` is the ring buffer and the pipe calls.

**Files.** `disk.dfy` is the disk as a sequence of bytes, `inode.dfy` the inode table, `blocks.dfy` who owns
which block, `file.dfy` reading, writing and recycling, `format.dfy` the initial bitmap, and `dir.dfy`
directories. `path.dfy` is the shell's path normaliser, `basics.dfy` what all of them use.

## How the pieces are modelled

- Objects that the C code updates in place are classes: `Bitmap.BitMap`, `Paging.Mmu`,
  `Pages.PageAllocator`, `Allocator.Heap`, `MinHeap.Heap`, `LinkedList.List`, `Kernel.Cpu`,
  `InodeTable.Partition`, `File.FileSystem`, `Dir.OpenDirectory`, `IoQueue.Queue`. Each method is proved to
  leave the state that a specification says; invariants and theorems are proved about the specifications.
- A step of the thread machine runs from one point where the processor may change hands to the next, so a
  sequence of steps (`Runs.Run`) is an interleaving of all threads. System calls enter through interrupt
  gates and therefore run with interrupts off; syscall_exit is split where it may wait for memory locks, and
  a mutex operation where it writes the holder field. A step that never ends is `None`: a failed ASSERT, or
  a loop that does not end.
- A page-allocator state is one address space. `tables` leaves out the directory's own entry and the second
  place of the kernel's first table (see below); frames of other address spaces are `foreign`, and
  `Pages.ProcessSpaceKeeps` makes a new space out of an existing one.
- The machine words are 32 bits where that shows: tick sums, page counts, disk addresses, the 8-bit exit
  status and the 16-bit pids are cut as the C types cut them. Bytes are numbers below 256.

## Where the code and its intent part ways

The code is modelled as it is; each of these has a theorem that says when it matters.

- MinHeapPop swaps a node with itself for ever when neither child is smaller (lib/kernel/minHeap.c:59-67).
  `MinHeap.LiteralLoopExits` says for which heaps the loop ends; `Sleeping.EqualDeadlinesHang` is a timer
  interrupt that never returns, and `Hanging.HangIsReachable` a run that gets there from any boot.
- The loader installs one page table in two entries of the kernel threads' directory (boot/loader.asm:196-197),
  so that what malloc_page maps first appears a second time below 4 MB: `Paging.KernelPagesAppearTwice`. That no
  other translation changes holds exactly for tables installed once: `Paging.MappingIsLocal`.
- A failed malloc_page leaves virtual bits set without pages (kernel/memory.c:328-332): `Pages.ShortageLeaks`.
  If there is no frame for a page table the page stays unmapped and is touched all the same
  (kernel/memory.c:305-316, 335): the outcome `Fault` of `Pages.PageAllocator.MallocPage`.
- A request close to 2^32 bytes wraps to few or no pages (kernel/memory.c:59): `Arena.PageCountSuffices`,
  and the answer `Wild` of `Allocator.Heap.Malloc`.
- fork empties the child's free lists but copies its arenas, whose headers go on pointing to the parent's
  descriptors (userprog/fork.c:7, 14, kernel/memory.c:87): the child's allocator is in order exactly if the
  parent has no small arena, `Arena.ForkedInOrder`; otherwise what the child frees goes to the parent's lists,
  `Arena.ChildFreesIntoParent`.
- The first ASSERT of syscall_exit compares a 16-bit pid with -1 and never fails (userprog/wait_exit.c:93); a
  thread without a parent runs into the second instead: `Process.ParentIsFound`.
- The exit status is stored in 8 bits (kernel/thread.h:81): `Runs.ReapedOnceWithItsStatus`.
- A wake-up time that wraps lies in the past (lib/user/syscallFun.c:146): `Sleeping.SleepDeadline`.
- Unlinking a thread that is in no list writes to the lists it once was in (kernel/thread.c:287):
  `LinkedList.RemoveUnlisted` says when a list survives that.
- AllocateOneBlock hands an address to BitMapUpdate, which wants an index (fs/file.c:231-233): the copy of
  the bitmap on the disk then goes stale, a PANIC meant to be unreachable is reached, or a sector outside
  the bitmap is overwritten; `File.AddressUpdates` and `File.MisalignedBasePanics` say exactly when.
- file_read stops in front of block 140 although files have up to 1036 (fs/file.c:329): `File.WriteThenRead`.
- InodeRecycle clears four bytes of its buffer instead of all (fs/inode.c:120): `File.RecycleIsExact`.
- partition_format clears one bit of the last byte too many (fs/fs.c:68): `Format.FormattedRange`.
- A name of 16 characters is stored without a zero (fs/file.c:115, lib/user/syscallFun.c:291), and the
  comparison runs on into the index behind it (fs/dir.h:13-17, fs/dir.c:22, fs/fs.c:300): `Dir.FindableIs`,
  `Dir.CreatedIsFound`. Such a file can be created again and again: `Dir.LongNameTwice`.
- CreateDirEntry looks at a 171st entry that lies behind the buffer (fs/dir.c:115), and fills a new direct
  block with what the buffer held (fs/dir.c:79): `Dir.CreateIsInsertion`, `Dir.FreshDirectoryNeverGrows`,
  `Dir.FullDirectoryIsDuplicated`.
- pipe_write counts one place too many as free (lib/user/syscallFun.c:91): `IoQueue.Queue.PipeWrite`.
- BitMapAllocate for zero bits looks at the first bit all the same (lib/kernel/bitmap.c:46-47):
  `Bitmap.FoundIsFirstFit`.

## Model

| member | source | states |
|---|---|---|
| Bitmap.FirstFit | lib/kernel/bitmap.c:38-55 | the least start of a run of clear bits, and -1 exactly when there is none |
| Bitmap.BitMap.Allocate | lib/kernel/bitmap.c:38-55 | the sliding window finds just that run |
| Bitmap.FoundIsFirstFit | lib/kernel/bitmap.c:38-55 | for a count of zero the answer is the least start exactly if the first bit exists and is clear |
| Bitmap.BlocksAreAligned | fs/file.c:46-51 | in a bitmap whose bytes are clear when their top bits are, runs of eight are found on byte boundaries |
| Bitmap.BlockUpdateKeepsShape | fs/file.c:75-78 | taking or freeing a block keeps the bitmap of that shape |
| Bitmap.BitMap.Set | lib/kernel/bitmap.c:18-26 | sets that bit and no other |
| Bitmap.BitMap.Reset | lib/kernel/bitmap.c:8-16 | clears that bit and no other |
| MinHeap.InsertCorrect | lib/kernel/minHeap.c:17-39 | insertion keeps heap order and adds just that node |
| MinHeap.PopCorrect | lib/kernel/minHeap.c:41-72 | the repaired pop keeps heap order, takes the root, which is a minimum, and loses nothing else |
| MinHeap.LiteralLoopExits | lib/kernel/minHeap.c:59-67 | the written loop ends exactly if the moved node exceeds its whole path of smaller children, and then agrees with the repaired one |
| MinHeap.PopCanSpin | lib/kernel/minHeap.c:59-67 | three equal keys make the written loop run for ever |
| MinHeap.Heap.Insert | lib/kernel/minHeap.c:17-39 | the buffer becomes that of the specification |
| MinHeap.Heap.Pop | lib/kernel/minHeap.c:41-72 | so does it after a pop, which reports whether the written loop would have ended |
| Paging.PteAddrReachesEntry | kernel/memory.c:215-225 | the hardware walk of PTE_Addr(v) ends in v's page-table entry and that of PDE_Addr(v) in its directory entry, for every v |
| Paging.Mmu.AddToPageTable | kernel/memory.c:298-317 | writing through virtual addresses only, edits exactly the entry, and installs and clears a table when there is none |
| Paging.Mmu.RemovePte | kernel/memory.c:253-257 | clears the present bit of the page's entry through its virtual address |
| Paging.Mmu.MapVaddrToPhyaddr | kernel/memory.c:406-410 | agrees with the hardware walk, offset included |
| Paging.MappingChanges | kernel/memory.c:298-317 | for every page what it translates to afterwards: changed are just the pages that share the table entry, and the self-map's view of a new table; no memory outside the tables changes |
| Paging.MappingKeepsPresent | kernel/memory.c:298-317 | no translation that was present changes |
| Paging.MappingIsLocal | kernel/memory.c:298-317 | the page translates to its frame, and no other page is affected exactly if its table is in one directory entry only |
| Paging.UnmappingChanges | kernel/memory.c:253-257 | for every page what it translates to after a present bit is cleared |
| Paging.UnmappingIsLocal | kernel/memory.c:253-257 | only that page is affected exactly if its table is in one directory entry only |
| Paging.MapThenUnmap | kernel/memory.c:253-317 | mapping and unmapping restores every translation, shared tables or not |
| Paging.LoaderTables | boot/loader.asm:190-233 | in the loader's directory the kernel tables are installed once, but for the first |
| Paging.KernelPagesAppearTwice | boot/loader.asm:196-197 | a page mapped under that first table appears below 4 MB as well, and goes there too when it is freed |
| Paging.ProcessTables | userprog/process.c:2-9 | in a process's directory every kernel table is installed once |
| Pages.PageAllocator.constructor | kernel/memory.c:151-193 | mem_init, with the loader's tables, establishes the invariant |
| Pages.KernelPoolFits | kernel/memory.c:161-188 | the kernel's virtual pool ends below the self-map exactly up to a stated amount of memory |
| Pages.BootShares | kernel/memory.c:161-188 | the two pools share the free memory, each to within 16 pages of a half, and end within it |
| Pages.PageAllocator.MallocPage | kernel/memory.c:319-339 | the code leaves the state of the specification and keeps the invariant, unless it faults |
| Pages.PageAllocator.FreePage | kernel/memory.c:274-297 | so does this, for pointers into a page too |
| Pages.PageAllocator.AddToPageTable | kernel/memory.c:298-317 | takes a frame for a missing table, or leaves the page unmapped in silence |
| Pages.MallocFacts | kernel/memory.c:319-339 | malloc_page succeeds exactly if there are addresses and frames, tables included; then just the run found is mapped, else the pages are as before; the invariant is kept |
| Pages.MallocFaults | kernel/memory.c:324-337 | it faults exactly if it finds addresses and some page gets a data frame but no page table, or there is no data frame at all and the first page has no table |
| Pages.MallocOutcome | kernel/memory.c:319-339 | which of the three answers malloc_page gives, from the bitmaps and tables before the call |
| Pages.ShortageLeaks | kernel/memory.c:328-332 | after a shortage exactly the virtual bits of the pages not reached stay set without a page |
| Pages.FreeKeeps | kernel/memory.c:274-297 | free_page unmaps just its range and keeps the invariant |
| Pages.KernelMalloc | kernel/memory.c:319-339 | a kernel allocation never faults and succeeds exactly if there are addresses and as many free frames as pages |
| Pages.AllocateThenFree | kernel/memory.c:274-339 | freeing what malloc_page gave restores pages and bitmaps, but for frames of new tables |
| Pages.SamePagesSameBitmaps | kernel/memory.c:195-339 | under the invariant the page map determines the bitmaps |
| Pages.RunKeeps | kernel/memory.c:195-339 | every sequence of calls keeps the invariant, and loses virtual pages exactly if some call was short of frames |
| Pages.RunRestores | kernel/memory.c:195-339 | a sequence that ends with the pages it began with has restored the virtual bitmaps exactly if it was never short, and then the physical ones, but for new tables |
| Pages.ProcessSpaceKeeps | userprog/process.c:2-18 | the address space of a new process meets the invariant |
| PageTables.LoaderIsShown | boot/loader.asm:182-233 | the page map mem_init starts with is what the walk finds in the loader's tables |
| PageTables.EnteredIsShown | kernel/memory.c:298-317 | AddToPageTable in memory is one change of the page map, and the map meets what the edit demands |
| PageTables.NextPageIsShown | kernel/memory.c:324-337 | after a round of malloc_page the walk finds the page in its frame exactly if the map has it, and clearing the page changes no table; else that access faults |
| PageTables.FreeOneIsShown | kernel/memory.c:285-293 | a round of free_page gives back the frame that the page translates to, and takes just this page out of the map |
| PageTables.DataDoNotShow | kernel/memory.c:336 | writing to a frame that is neither directory nor table changes no translation |
| PageTables.NewSpaceIsShown | userprog/process.c:2-9 | the directory of a new process shows the kernel's part of its maker's map, and its maker's is as before |
| Arena.LiveDisjoint | kernel/memory.c:42-149 | outstanding blocks are pairwise disjoint |
| Arena.LiveMissesHeaders | kernel/memory.c:31-40 | no outstanding block overlaps an arena header |
| Arena.RipeIsFree | kernel/memory.c:131-145 | the count reaches the number of blocks exactly when none is outstanding |
| Arena.PageCountSuffices | kernel/memory.c:58-59 | the pages hold the request exactly if the sum does not wrap, and there are no more than it takes |
| Arena.CntPerPage | kernel/memory.c:22-30 | less than one block's room is left over in a page |
| Arena.SizesDouble | kernel/memory.c:22-30 | the first class has blocks of 16 bytes, each further one of twice as many |
| Arena.Refilled | kernel/memory.c:79-94 | a page cut into blocks keeps the free lists exact |
| Arena.ForkedInOrder | userprog/fork.c:6-21 | the copied allocator is in order exactly if its parent has no small arena; the parent's stays so |
| Arena.ChildFreesIntoParent | kernel/memory.c:128-134 | a block of a small arena that the child frees joins the list of its parent, which still has it outstanding |
| Arena.FullArenaIsForkedWrongly | userprog/fork.c:6-21 | one arena with all its blocks outstanding and every list empty is such a case |
| Allocator.Heap.Malloc | kernel/memory.c:42-109 | gives the front of the class's list, or a block 12 bytes into the first run of pages, exactly if there is one and the frames are there; otherwise null or a fault; what it leaves of lists, headers and pages; the invariant is kept |
| Allocator.MallocAnswers | kernel/memory.c:42-109 | the answer to a request, from the free lists and bitmaps before it |
| Allocator.MallocServes | kernel/memory.c:71-107 | a block from a list leaves the rest of the list; a block from a new page leaves the page's other blocks on it in order; a large block leaves the lists alone |
| Allocator.Heap.Free | kernel/memory.c:110-149 | puts the block behind its list, or, if it was the last one of its arena, takes the arena's blocks off the list and frees its pages; meets what free_page demands, with a pointer 12 bytes into its page too |
| Allocator.FreeReturns | kernel/memory.c:121-145 | what the return of a block leaves of lists, headers and pages |
| Allocator.MallocKeeps | kernel/memory.c:42-109 | a block handed out is new and large enough exactly if the page count did not wrap; free lists, counts, headers and pages stay consistent, and nobody else's pages change |
| Allocator.FreeKeeps | kernel/memory.c:110-149 | a block taken back leaves all others outstanding; its pages are released exactly when it was the last on them, and then all of them |
| Allocator.LiveIsMapped | kernel/memory.c:42-109 | every byte of an outstanding block is on a mapped page |
| Allocator.RunKeeps | kernel/memory.c:42-149 | every sequence of mallocs and frees by one owner keeps the invariant and everybody else's pages |
| Allocator.AllFreedRestores | kernel/memory.c:42-149 | when all blocks are freed no arena is left, the page map is as at the beginning, and the bitmaps are too exactly if the run was never short, but for page tables made |
| Allocator.KernelRestores | kernel/memory.c:42-149 | in the kernel that restores the whole state |
| Allocator.PageCallKeeps | kernel/memory.c:274-339 | page allocations and releases by others keep an allocator in order |
| Fork.CopyStack3 | userprog/fork.c:24-43 | completes exactly with frames enough; the child then has the parent's pages with equal contents in frames of its own, and memory that is neither its page nor its table is untouched |
| Fork.ParentUntouched | userprog/fork.c:24-43 | the parent's pages keep their bytes |
| Fork.ChildIsConsistent | userprog/fork.c:6-43 | with the bitmap copied beforehand the child meets the invariant and shares no frame |
| Fork.ChildBegins | userprog/fork.c:6-21 | the child's fresh address space is fit for the copy, and every bit copied names a page of the parent exactly if the parent has lost none |
| Lists.UnlinkTakesOne | lib/kernel/list.c:49-56 | removal takes one element and keeps the rest without duplicates |
| Lists.UnlinkAt | lib/kernel/list.c:49-56 | it takes the element out of its place, and the others stay in order |
| LinkedList.List.PushFront | lib/kernel/list.c:15-24 | on the pointers, puts the node in front of the others |
| LinkedList.List.PushBack | lib/kernel/list.c:26-35 | on the pointers, puts the node behind the others |
| LinkedList.List.Remove | lib/kernel/list.c:49-56 | on the pointers, is removal from the sequence, and the node keeps its stale pointers |
| LinkedList.RemoveUnlisted | kernel/thread.c:279-287 | unlinking a node that is in no list leaves a list in order exactly if the node's old neighbours still are neighbours, or it never had any |
| Sched.ExactlyOneList | kernel/thread.c:126-142 | between steps each thread is in just the list of its status, and one runs |
| Sched.WakesDueInOrder | kernel/thread.c:132-142 | one pass wakes exactly the sleepers that are due, in order of their deadlines, behind the ready threads |
| Sched.ScheduleWakesAllDue | kernel/thread.c:183-213 | after a switch no sleeper is due |
| Sched.ScheduleIsCalm | kernel/thread.c:183-213 | a switch changes statuses and time slices only, wakes no sleeper early and unparks nobody but the idle task |
| Sched.NextExists | kernel/thread.c:198-206 | the ready list is not empty when the next thread is popped |
| Sched.DispatchKeeps | kernel/thread.c:205-212 | the switch establishes the invariant of the lists |
| Sched.PassOrder | kernel/thread.c:183-213 | the first ready thread runs, the others move up by one, the woken come last |
| Sched.RoundRobin | kernel/thread.c:126-130 | a preempted thread goes to the end with a new time slice |
| Switching.ScheduleIs | kernel/thread.c:183-213 | after a switch the first ready thread runs, or the idle task; those overdue stand behind the others, by deadline, with a new time slice; the thread that left is where its status says; no other thread has changed |
| Switching.ScheduleReturns | kernel/thread.c:183-213 | the switch returns exactly if the heap has room for a thread that goes to sleep, and each MinHeapPop returns |
| Machine.SchedulingKeeps | kernel/thread.c:183-213 | a switch keeps every invariant of semaphores, processes and exits |
| Semaphore.DownStep | kernel/thread.c:36-47 | one pass of SemaphoreDec keeps all invariants |
| Semaphore.UpStep | kernel/thread.c:22-35 | SemaphoreInc keeps all invariants and trips its ASSERT exactly at 255 |
| Semaphore.ReleaseNeverOverflows | kernel/thread.c:58-62 | releasing a mutex never trips that ASSERT |
| Semaphore.MutualExclusion | kernel/thread.c:53-62 | two owners of a mutex are one and the value is 0 |
| Semaphore.WaitersAreServed | kernel/thread.c:22-47 | with a waiter the value is at most the number of woken threads that have not retried; nobody waits twice |
| Queues.UnitsAndQueue | kernel/thread.c:22-47 | over every run no unit of a semaphore is lost or made, and its queue is first in, first out |
| Process.WaitKeeps | userprog/wait_exit.c:59-87 | a pass of syscall_wait keeps all invariants |
| Process.ExitBeginStep | userprog/wait_exit.c:89-97 | so does syscall_exit up to the adoption of the children, for threads without a parent too |
| Process.ExitEndKeeps | userprog/wait_exit.c:98-106 | and its rest |
| Process.ParentIsFound | userprog/wait_exit.c:99-100 | the second ASSERT holds exactly if the thread has a parent, who then is not on its way out |
| Dying.DieStep | kernel/thread.c:279-300 | ThreadExit for a running kernel thread keeps all invariants |
| Process.FindHanging | userprog/wait_exit.c:64-80 | the scan finds a hanging child exactly if there is one |
| Process.BuryingKeeps | kernel/thread.c:279-300 | reaping a hanging child keeps all invariants |
| Machine.AddingKeeps | kernel/thread.c:93-110 | a new thread or process keeps all invariants |
| Runs.BootKeeps | kernel/thread.c:157-181 | init_thread establishes all invariants |
| Runs.BootIsReachable | kernel/thread.c:157-181 | the booted state is a reachable one |
| Runs.StepKeeps | kernel/thread.c:17-300 | every step keeps all invariants |
| Runs.SchedulerSafety | kernel/thread.c:126-254 | in every reachable state one thread runs, each other is in just the list of its status, and the heap holds the sleepers with their deadlines |
| Runs.SemaphoreSafety | kernel/thread.c:17-62 | in every reachable state: mutual exclusion, no lost wakeup, at most one queue for a thread, waiters are blocked |
| Runs.ProcessSafety | userprog/wait_exit.c:36-106 | in every reachable state a parent is alive and staying, and who waits has a child and no unnoticed exit |
| Runs.ReapedOnceWithItsStatus | userprog/wait_exit.c:59-106 | each exit is reaped at most once, with its status cut to 8 bits: unchanged exactly from -128 to 127 |
| Runs.NobodyWakesEarly | lib/user/syscallFun.c:143-150 | over every run a sleeper that woke was given at least the ticks up to its deadline |
| Sleeping.SleepDeadline | lib/user/syscallFun.c:143-150 | the deadline is not before the requested time exactly if the sum does not wrap |
| Sleeping.EqualDeadlinesHang | kernel/thread.c:132-142 | three sleepers with one due deadline hang the timer interrupt |
| Effects.TickEffect | device/timer.c:29-43 | the counter goes up modulo 2^32; the running thread loses one tick, or the processor if it has none left |
| Effects.YieldEffect | kernel/thread.c:230-241 | the thread goes to the end of the ready list with what is left of its time slice |
| Effects.IdleBlockEffect | kernel/thread.c:150-155 | the idle task is blocked and the processor passes on |
| Effects.SleepEffect | lib/user/syscallFun.c:143-150 | the deadline is the sum modulo 2^32, and unless it has come already the thread sleeps |
| Effects.CreateEffect | kernel/thread.c:75-110 | a new thread has a pid nobody had, no parent, a full time slice, and is last on both lists; nothing else changes |
| Effects.ForkEffect | userprog/fork.c:6-21 | the child is the forker's, has a pid nobody had, its priority and a full time slice, and is last on both lists; nothing else changes |
| Effects.DownEffect | kernel/thread.c:36-47 | at value 0 the thread joins the end of the queue and blocks, else it takes one unit |
| Effects.UpEffect | kernel/thread.c:22-35 | the first waiter leaves the queue and stands in front of all that are ready; the value goes up by one |
| Effects.SetHolderEffect | kernel/thread.c:53-57 | acquiring a mutex ends with the thread as its holder |
| Effects.ClearHolderEffect | kernel/thread.c:58-62 | releasing one begins with nobody as its holder |
| Effects.WaitReaps | userprog/wait_exit.c:70-78 | if a child hangs, the first in the list of all threads is handed over with pid and status and it alone is gone; the waiting thread goes on |
| Effects.WaitBlocks | userprog/wait_exit.c:82-84 | with children of which none hangs the thread is left waiting |
| Effects.WaitIsOver | userprog/wait_exit.c:82 | without children it goes on as it was |
| Effects.ExitBeginEffect | userprog/wait_exit.c:89-97 | exactly the children get pid 1 for a parent, and the status is stored modulo 2^8 |
| Effects.ExitEndEffect | userprog/wait_exit.c:98-106 | who exits is left hanging, and a parent that waits runs next |
| Effects.ExitWithoutParent | userprog/wait_exit.c:99-100 | the second ASSERT fails for a thread whose parent is not there |
| Effects.ExitReachesWaiter | userprog/wait_exit.c:59-106 | a parent that waits runs next after its child's exit, and its wait returns just that child with the status given to syscall_exit, cut to 8 bits |
| Effects.DieEffect | kernel/thread.c:279-300 | the thread is gone from all lists, and the processor passes on if every MinHeapPop returns |
| Hanging.HangIsReachable | kernel/thread.c:132-142 | from every boot, six steps lead to a state whose next timer interrupt never returns |
| Kernel.Cpu.constructor | kernel/thread.c:157-181 | builds the booted state |
| Kernel.Cpu.ProcessDelayThread | kernel/thread.c:132-142 | the loop on the heap object does what its step says, or reports that it never returns |
| Kernel.Cpu.Schedule | kernel/thread.c:183-213 | as its step |
| Kernel.Cpu.Tick | device/timer.c:29-43 | as its step |
| Kernel.Cpu.FindHangingChild | userprog/wait_exit.c:63-80 | the loop finds the first hanging child, and whether there is a child |
| Kernel.Cpu.FindTargetPCB | userprog/wait_exit.c:47-58 | the loop finds the first thread with that pid |
| Kernel.Cpu.InitAdopt | userprog/wait_exit.c:36-46 | the loop changes just the parents of that pid's children |
| Kernel.Cpu.Wait | userprog/wait_exit.c:59-87 | as its step; when it comes back it reports a child exactly if one hung, the first in the list, and then that child alone is gone; blocked, the thread is left waiting |
| Kernel.Cpu.ExitBegin | userprog/wait_exit.c:89-97 | as its step |
| Kernel.Cpu.ExitEnd | userprog/wait_exit.c:98-106 | as its step; the thread is left hanging among the blocked, and a parent that waits runs |
| Kernel.Cpu.Create | kernel/thread.c:75-110 | as its step |
| Kernel.Cpu.Fork | userprog/fork.c:6-21 | as its step: the new thread is the running one's child |
| IoQueue.FirstInFirstOut | lib/kernel/ioqueue.c:19-70 | over every interleaving what was got is a prefix of what was put, and the length is the difference |
| IoQueue.LenAndFull | lib/kernel/ioqueue.c:10-22 | length, full and empty say what the ring holds, across the wrap |
| IoQueue.Queue.Put | lib/kernel/ioqueue.c:23-46 | appends the byte |
| IoQueue.Queue.Get | lib/kernel/ioqueue.c:47-70 | takes the oldest byte |
| IoQueue.Queue.PipeRead | lib/user/syscallFun.c:72-86 | returns the oldest bytes, as many as asked for and there, and never waits |
| IoQueue.Queue.PipeWrite | lib/user/syscallFun.c:87-101 | puts what fits, and blocks exactly if asked for more |
| InodeTable.RecordFits | fs/inode.c:29-38 | the sectors moved hold the whole record and belong to the table; they are two exactly if it straddles |
| InodeTable.WritesItsRecordOnly | fs/inode.c:49-67 | InodeWrite replaces the 88 bytes of its record and no other byte of the disk |
| InodeTable.RoundTrip | fs/inode.c:6-67 | InodeOpen reads back every word InodeWrite wrote, and other records as before |
| InodeTable.Partition.InodeOpen | fs/inode.c:6-48 | counts one user more of an open inode, or reads a new one with one user; no index is open twice |
| InodeTable.CountsAreUsers | fs/inode.c:6-87 | over every sequence of opens and closes an inode's count is the number of its users, and it is in the list exactly while it has one |
| InodeTable.LastCloseRemoves | fs/inode.c:6-87 | after n opens of an inode that was not open exactly the n-th close removes it, and the list is as before |
| InodeTable.Partition.InodeClose | fs/inode.c:69-87 | the inode leaves the list exactly with its last user |
| InodeTable.Partition.InodeWrite | fs/inode.c:49-67 | the read-modify-write does what the specification says |
| Disk.WordsOfImage | fs/inode.c:40-41 | words stored in memory order are read back |
| Blocks.FoundIsFree | fs/file.c:46-51 | a block that is found belongs to nobody and starts a byte of the bitmap |
| Blocks.TakingForOthers | fs/file.c:46-51 | a block found for a directory belongs to no file and is reserved for nobody; with it reserved the invariant holds on |
| Blocks.FirstZeroIsNext | fs/file.c:212-214 | allocated blocks are a prefix without holes, so the first zero entry is the next slot |
| Blocks.GrowsByOne | fs/file.c:185-237 | AllocateOneBlock fills the next slot, keeps the invariant and all data, in all three cases |
| Blocks.CannotGrow | fs/file.c:185-237 | it fails exactly if the file has 1036 blocks or too few are free, two being needed for the first indirect one |
| File.FileSystem.AllocateIndirectBlock | fs/file.c:185-225 | the code, with its rollback and its fall-through to the start of the disk, does just that |
| File.FileSystem.AllocateOneBlock | fs/file.c:227-237 | so does this, and how BitMapUpdate ends is what the address of a direct block makes it |
| File.FileSystem.FileWrite | fs/file.c:239-303 | splices the bytes into the file at its position, changes no other file, writes all of them unless no block can be had, and stores the inode, leaving those of other files as they were stored; it ends normally exactly if the address of every direct block it added suits BitMapUpdate |
| File.FileSystem.FileRead | fs/file.c:304-351 | returns the bytes from the position to the end, the count or block 140 |
| File.WriteThenRead | fs/file.c:239-351 | reading back returns the bytes written exactly if they end in front of block 140 |
| File.FileSystem.InodeRecycle | fs/inode.c:115-141 | frees the file's blocks, keeps all other files and the invariant, and leaves the bitmap and the inodes on the disk up to date if they were |
| File.RecycleIsExact | fs/inode.c:118-139 | it frees just the blocks of the file exactly if the file has a table, or a zero direct entry, or word 12 of the buffer is zero |
| File.FileSystem.NewFile | fs/file.c:99-127 | a new file is empty, is stored with an open count of 1, and changes no other, stored or in memory |
| File.RemountKeeps | fs/inode.c:6-48 | with every inode on the disk as in memory, opening the stored ones after a restart finds the same files |
| File.DirectoryTakes | fs/dir.c:68-79 | a block taken for a directory and filled changes no file |
| File.IndexUpdates | fs/file.c:53-73 | given a block's index, BitMapUpdate neither panics nor strays and updates the copy on the disk |
| File.AddressUpdates | fs/file.c:227-235 | given an address, it ends normally, and updates the copy, exactly under the stated conditions |
| File.AlignedBaseIsFine | fs/file.c:53-73 | with the data area on a multiple of 8 below the number of bits it always ends normally |
| File.MisalignedBasePanics | fs/file.c:66-71 | otherwise one in 64 consecutive blocks does not |
| Format.FormattedShape | fs/fs.c:57-71 | the new bitmap has the shape that keeps blocks on byte boundaries |
| Format.FormattedRange | fs/fs.c:63-71 | every block that can be had is on the partition exactly if the length is not 7 modulo 8 |
| Format.NewPartition | fs/fs.c:12-72 | a new partition meets the invariant of the file system |
| Format.NewPartitionIsFine | fs/file.c:227-235 | on a new partition no direct block panics or goes astray exactly under a condition on the start and the length of the data area |
| Dir.CreateIsInsertion | fs/dir.c:51-139 | a creation adds the entry and nothing else exactly if its block has a free slot of its own, or the new block is clean; the size grows in any case |
| Dir.CreateFails | fs/dir.c:68-137 | it fails exactly for want of space, and then changes nothing |
| Dir.FreshDirectoryNeverGrows | fs/file.c:118-121 | a directory opened anew for each creation loses the entry once its first block is full |
| Dir.FullDirectoryIsDuplicated | fs/dir.c:77-82 | otherwise a full directory of 1 to 11 blocks gets its last block's entries twice |
| Dir.FindableIs | fs/dir.h:13-17 | what strcmp reads in an entry is its name exactly if that has less than 16 characters or the lowest byte of the index is zero |
| Dir.CreatedIsFound | fs/dir.c:7-32 | an entry just created is found by its name exactly under that condition |
| Dir.LongNameIsMissed | fs/fs.c:280-313 | otherwise it is there, but search and deletion miss it |
| Dir.LongNameTwice | fs/file.c:114-118 | in a new directory abcdefghijklmnop can be created twice |
| Dir.CreateRefines | fs/dir.c:51-139 | a creation leaves a finite map, its size the number of entries, exactly if it is proper and its name is new and can be found; then it is insertion into that map |
| Dir.SearchIsLookup | fs/dir.c:7-32 | the search, by what strcmp reads, is lookup in that map |
| Dir.DeleteRefines | fs/fs.c:280-313 | deletion is removal from that map, and the size stays the number of entries |
| Dir.RunRefines | fs/dir.c:7-139 | over every sequence of creations, deletions and searches a directory replies as its map does, as long as its creations are proper, of new names, and of names that can be found |
| Dir.OpenDirectory.CreateDirEntry | fs/dir.c:51-139 | the loops do what the specification says, buffer and memory behind it included |
| Dir.OpenDirectory.SearchDirEntry | fs/dir.c:7-32 | the loops find the first entry that reads as that name, and the buffer then holds its block |
| Dir.OpenDirectory.DeleteDirEntry | fs/fs.c:280-313 | the loops clear the first entry that reads as that name, on the disk and in the buffer |
| Dir.OpenDirectory.ReadDir | lib/user/syscallFun.c:353-388 | by counting from the start, returns the entry at the position |
| Dir.ListDirectory | lib/user/syscallFun.c:353-388 | from position 0 each entry of the map is returned once, and then no more |
| Path.GetAbsolutePath | shell/buildin_cmd.c:8-49 | the in-place scan computes the specification |
| Path.RelativeContinues | shell/buildin_cmd.c:12-20 | it folds the components over a stack, a relative path from where the current directory leads |
| Path.ResultIsNormal | shell/buildin_cmd.c:40-47 | the result is absolute, without empty, "." or ".." components |
| Path.ResultIsTight | shell/buildin_cmd.c:41-46 | no slash follows another, and none is last but that of the top directory |
| Path.LastComponent | shell/buildin_cmd.c:30-38 | one more component: "." changes nothing, ".." takes the last one away if there is one, any other is added |
| Path.NormalisingTwice | shell/buildin_cmd.c:8-49 | normalising twice is normalising once |
| Path.ComponentsOfJoin | shell/buildin_cmd.c:41-46 | taking a joined path apart gives back its components |

## Left out

- Port and disk commands, interrupt and descriptor tables, screen, keyboard, the shell's commands and all assembly; the TLB.
- File descriptors and write_deny: the tables of open files are not modelled, nor is the inode bitmap, whose set bits are the domain of `inodes` in `File`.
- getcwd, SearchFile and the path checks of the kernel; exec and the ELF loader; SleepWithoutHang; randint; PidRecycle, which does nothing.
- Dying.DieStep: ThreadExit for the running thread (kernel/kernel.c:60) is a step when unlinking it from the list it was in last does no harm; whether it does is said by `LinkedList.RemoveUnlisted`, whose pointers the machine does not have.
- Machines with more memory than `Pages.KernelPoolFits` allows; and that the bitmaps, which lie below the main thread's PCB (kernel/memory.c:5), run into it with more than about 340 MB.
- Switching between two existing address spaces, and the page tables a process gives back when it exits.
- Waking of blocked producers and consumers of a ring buffer: a put or get that finds the ring full or empty waits, and when it is woken is not modelled; nor is that a woken one blocks again if another was faster.
- Interrupts between the stores of one list or semaphore operation: these run with interrupts off and are single steps. PidAllocate's mutex and the locks of the memory pools are not steps of the machine's fork and create.
- The address space of a process is given back by ReleaseProcessResource, which is not modelled; freeing its bitmap rounds the page count down where allocation rounded up (userprog/wait_exit.c:27, userprog/process.c:12).
- Pid numbers beyond 65534 and a second use of them.
- `Dir` speaks of a directory's blocks without their addresses; that the blocks it takes are nobody else's is said by `Blocks.TakingForOthers`, and that files do not notice by `File.DirectoryTakes`. The set of reserved blocks is fixed for one `File.FileSystem` object.
- Names of more than 16 characters, which run over the callers' buffers of 17 (fs/fs.c:183-195); and that open takes the name of a directory for a new one and creates a second entry (lib/user/syscallFun.c:162-165).
- A disk that fails, and what happens after BitMapUpdate has panicked or overwritten a sector beyond the bitmap: the promises of `File` then end.
- Buffers that cannot be allocated: file_read and file_write then return 0 and change nothing.
- Runs.Enabled: pid 1 neither waits nor exits, as in kernel/kernel.c:64-72, a mutex is released by a thread that acquired it, the idle task does nothing but park itself, and an exiting process starts no other operation but semaphore operations.
- File.RemountKeeps: says nothing of the bitmap on the disk, which AllocateOneBlock may leave stale (`File.AddressUpdates`); of a write that ended in a PANIC the inode is not stored.
- Pages.PageAllocator.constructor: requires no more memory than `Pages.KernelPoolFits` says, about two gigabytes.
- Format.NewPartition: requires a length that is not 7 modulo 8; `Format.FormattedRange` says what happens else.
- Pages.PageAllocator.FreePage: requires every page of the range to be mapped, because the code reads the page-table entries without looking; the same holds for the physical address it takes first when the count is 0.
- Allocator.Heap.Free: requires a block that is outstanding, as free does.
- File.FileSystem.FileWrite: requires counts below 2^31, which `min` in lib/math.c takes for negative, and a position within the file, which syscall_seek keeps.
- File.FileSystem.FileRead: requires counts below 2^31 for the same reason.
- File.FileSystem.InodeRecycle: requires the condition of `File.RecycleIsExact`, which syscall_unlink meets with a zeroed buffer (lib/user/syscallFun.c:258-265); syscall_rmdir passes the buffer that held the parent's addresses (lib/user/syscallFun.c:415-418).
- Dir.OpenDirectory.ReadDir: requires the position to be below the number of entries when it is below the size, since the scan otherwise runs off the table of addresses.
- Bitmap.BitMap.Set: requires an index within the bitmap; the ASSERT in lib/kernel/bitmap.c:21 allows one byte more.
- Path.GetAbsolutePath: requires the whole path to fit MAX_PATH_LEN, as the buffers do.
