# Verified model of an x86 teaching kernel

This project models the parts of the kernel that hold whole-run invariants, and proves
those invariants in Dafny.  `dafny verify dfyconfig.toml` checks everything.

The kernel is a 32-bit, single-processor system with preemptive threads, user processes,
paging, an arena heap and a small file system on an IDE disk.

| file | part of the kernel |
|---|---|
| `Sequences.dfy` | facts about sequences that several parts share |
| `Bitmap.dfy` | bitmaps as bytes, first fit and the off-by-one of the scan; every allocator works on these bytes |
| `Lists.dfy` | intrusive doubly linked lists |
| `Scheduler.dfy` | run queue on a linked list, idle task, timer, round robin |
| `Sync.dfy`, `SyncProofs.dfy`, `SyncOrder.dfy`, `SyncClass.dfy` | semaphores, recursive locks and the disk handshake under preemption; the order of the waiters |
| `Processes.dfy` | pids, fork, exit and wait |
| `Heap.dfy`, `HeapProofs.dfy`, `HeapOrder.dfy`, `HeapClass.dfy` | `sys_malloc` and `sys_free`; the order in which blocks are reused |
| `Paging.dfy` | two-level page tables edited through the self-mapped slot |
| `Pages.dfy`, `PageAllocator.dfy` | `malloc_page` and `mfree_page` over bitmaps and page table words |
| `Fork.dfy` | `create_page_dir` and the copy of the address space |
| `Files.dfy`, `FileSystem.dfy` | file contents, block and inode bitmaps, `file_write`, `file_read`, `inode_release` |
| `Ide.dfy` | transfers of sectors in commands of at most 256 |
| `InodeTable.dfy`, `Records.dfy` | packed inode records, when they agree with the inodes, and the list of open inodes |
| `Directory.dfy`, `DirectoryOps.dfy` | directories as finite maps, on the same disk and bitmaps |
| `FileTree.dfy`, `FailingRuns.dfy` | `file_create`, `sys_mkdir`, `sys_unlink`, `sys_rmdir` and the directory tree; runs that leave what it keeps |
| `Path.dfy` | `path_parse` and `wash_path` |

The main results:

- Locks exclude, wake-ups are not lost, disk commands and interrupts match one to one, and
  no ASSERT of the synchronisation code fails, in every run under every preemption
  (`SyncProofs.MutualExclusion`, `NoLostWakeup`, `DiskHandshake`, `RunAsserts`); waiters are
  served first come, first served (`SyncOrder.FirstComeFirstServed`).
- The run queue is well formed in every state; who is given which time slice is exact; and
  round robin is bounded in calls and in timer interrupts, wake-ups included
  (`Scheduler.ScheduleSlices`, `UnblockRunsNext`, `RunsAfterCalls`, `RunsWithinBudget`).
- The process forest is safe over every run of fork, exit and wait
  (`Processes.ForestSafety`, `FreedPidUnnamed`, `ReapedOnce`, `NoSleepOnHangingChild`), and
  children are reaped oldest first (`OldestReaped`).
- The heap's counters, free lists and live regions agree in every run, and freeing undoes
  allocating (`HeapProofs.RunKeepsInv`, `LiveRegionsApart`, `ReleasedWithLastBlock`,
  `MallocThenFree`); blocks are reused in the order of freeing (`HeapOrder.ReusedInOrder`).
- Page tables edited through their own window implement a partial map with its access
  rights; allocation is injective and reversible on the actual page table words
  (`Paging.AddedMapping`, `AddedTranslate`, `PageAllocator.Kernel.AllocateAndRelease`).
- Fork copies and isolates the address space (`Fork.CopyBodyStack3`, `ForkIsolates`,
  from a directory that `ChildReady` shows to be fit for it).
- Files refine byte sequences through all allocation cases (`FileSystem.Fs.FileWrite`,
  `FileRead`, `CreateWriteRelease`).
- Over any mixture of creating, writing and removing files and directories, the block
  bitmap is the disjoint union of the blocks of all inodes, the inode bitmap is the set of
  inodes, every inode but the root has exactly one directory entry, and every inode's
  record is on the disk (`FileTree.Perform`, `CreateOrdered`, `SysUnlink`, `WriteFile`).
  The limits are exact: a new number below 256, room in the parent, and nothing harmful written
  behind the short buffer of a sync.  Beyond them the runs of `FailingRuns` fail.
- Inode records, directories and paths refine an array of records, a finite map and a
  fold (`InodeTable.SyncReadsBack`, `DirectoryOps.SyncDirEntry`, `DeleteDirEntry`,
  `ReadAll`, `Path.WashPath`); one component more or less is what it should be
  (`Path.NormalDown`, `NormalUp`).

How the parts are modelled:

- Code that runs with interrupts off is one step.  The lock, disk and process models are
  transition systems over any number of threads, with a program counter for each; a run
  is any sequence of enabled steps.  History variables (the owner of a lock, who issued a
  disk command, what was passed to `sys_exit`) only record, they decide nothing.
- An inode is in memory only while it is open.  Every call on a closed one reads its record
  (`FileSystem.Fs.Load`), and is proved to get the inode itself as long as the records agree.
- Where the kernel works in place, a class does the same with loops, and each method is
  proved against a function on values; the invariants are proved about that function.
- `ASSERT` and `PANIC` are obligations, proved at the place where they stand.  Running out
  of pages, blocks or pids is a halt, because `bitmap_scan` asserts before it can return
  -1 (`lib/kern/bitmap.c:30`); after a halt nothing is promised.
- Physical memory is a map from words to values; a disk is a map from sector addresses to
  512 bytes.  Page table entries follow sections 4.3 and 4.6 of the Intel 64 and IA-32
  Architectures Software Developer's Manual, Volume 3A.

Where the code departs from its intent, the model follows the code:

- `bitmap_scan` for more than one bit looks at the bit past the end (`ScanOverruns`).  The
  allocators follow it: without a guard bit behind a pool, a request for several pages can
  be given a run that ends one page past the pool (`Heap.GrantCauses`,
  `PageAllocator.RunCauses`); with the last page taken or the bit behind set, it cannot
  (`GuardedGrant`, `GuardedPool`).
- `inode_sync` narrows the inode number to eight bits (`SyncReadsBack`, `SyncClobbers`), so
  the 257th inode cannot be unlinked once it is closed (`FailingRuns.OneTooMany`),
  and `file_write` gives it a buffer that is too small for some inodes (`SmallBuffer`);
  what that does to the disk is `ShortSync`, and when it is harmless `ShortSyncHarmless`.
- `sync_dir_entry` never loads the indirect table, so a second overflow of the direct
  blocks loses what lay behind the first table (`LaterOverflow`); the counting loop of
  `delete_dir_entry` at line 334 never advances, so deleting the only entry of a block
  behind the table does not return (`DeleteDirEntry`).
- `file_read` computes in 32 bits, so a position beyond the end or a count that wraps
  around is not caught (`FileRead`).
- `ide_read` and `ide_write` compare only the first sector of each command with `max_lba`.
- `file_write` halts at exactly 71680 bytes, which its own check admits, and `file_read`
  halts from block 139 on (`FileWrite`, `FileRead`).
- init can sleep in `sys_wait` over a hanging child that it adopted while asleep
  (`InitSleepsOnAdoptedChild`); nobody else can.
- The boot directory's entries 0 and 768 share a page table (`boot/loader.S:282-283`), so
  "every other translation" means every address that another entry governs.

## Model

| member | source | states |
|---|---|---|
| `Bitmap.Scan` | lib/kern/bitmap.c:24-65 | The byte and bit loops halt exactly when every bit is set; for one bit the result is the least clear bit; for more, the least start of a clear run in the bitmap extended by the one bit behind it; for none, a place just behind a set bit |
| `Bitmap.ScanRest` | lib/kern/bitmap.c:47-64 | The counting loop finds first fit over the bitmap and the bit just past its end, for every count above 1 |
| `Bitmap.ScanExact` | lib/kern/bitmap.c:47-63 | With the bit past the end (or the last bit) set, that is exact first fit in the bitmap |
| `Bitmap.ScanOverruns` | lib/kern/bitmap.c:47-63 | A result overruns by one bit exactly when no run fits inside and the last cnt-1 bits and the bit past the end are clear |
| `Bitmap.ScanBound` | lib/kern/bitmap.c:47-63 | Whatever lies behind the bitmap, start + cnt is at most one more than the number of bits |
| `Bitmap.FirstFitUnique` | lib/kern/bitmap.c:21-65 | First fit is determined by "a clear run, and none earlier" |
| `Bitmap.Set` | lib/kern/bitmap.c:68-76 | Exactly the addressed bit takes the given value, every other bit stays |
| `Bitmap.PutRange` | kern/memory.c:479-496 | Setting bits one by one over bytes changes exactly that range of bits, and not the bit behind the bitmap |
| `Bitmap.TakeRun` | kern/memory.c:41-66 | Scan and set over bytes: the run that the scan finds becomes taken; a run that passes the end sets the bit behind the bitmap |
| `Bitmap.TakeOne` | kern/memory.c:91-100 | The least clear bit becomes set; nothing is found exactly on a full bitmap, which stays as it is |
| `Bitmap.MarkedUnique` | lib/kern/bitmap.c:68-76 | The set of marked numbers determines the bits |
| `Bitmap.ClearNone` | lib/kern/bitmap.c:28-31 | No clear bit is left exactly on a full bitmap |
| `Lists.List.InsertBefore` | lib/kern/list.c:14-26 | Rewiring four pointers inserts the element at its place in the sequence, and both directions of the chain stay consistent |
| `Lists.List.Push` | lib/kern/list.c:29-32 | The element becomes the first of the sequence |
| `Lists.List.Append` | lib/kern/list.c:39-42 | The element becomes the last of the sequence |
| `Lists.List.Remove` | lib/kern/list.c:45-53 | Exactly that element leaves the sequence |
| `Lists.List.Pop` | lib/kern/list.c:56-61 | The first element is returned and leaves the sequence |
| `Lists.List.IsEmpty` | lib/kern/list.c:64-67 | Tells whether the sequence is empty |
| `Lists.List.Len` | lib/kern/list.c:70-82 | The pointer walk counts the elements of the sequence |
| `Lists.List.Traverse` | lib/kern/list.c:87-100 | The first element that satisfies the callback, or null exactly if there is none |
| `Lists.List.ElemFind` | lib/kern/list.c:103-112 | The pointer walk decides membership in the sequence |
| `Scheduler.ScheduleAsserts` | thread/thread.c:178-240 | The ASSERTs that schedule evaluates hold: the running task is not queued (186), idle is BLOCKED and unqueued when it must be woken (226, 230), and a task is always found (199) |
| `Scheduler.ScheduleKeepsInv` | thread/thread.c:178-208 | After schedule exactly one task is RUNNING, and a task is READY exactly if it is on the ready list, once |
| `Scheduler.BlockKeepsInv` | thread/thread.c:211-220 | thread_block keeps the run queue well formed, for idle too |
| `Scheduler.UnblockKeepsInv` | thread/thread.c:223-240 | thread_unblock of a parked task keeps the run queue well formed |
| `Scheduler.YieldKeepsInv` | thread/thread.c:243-252 | thread_yield keeps the run queue well formed |
| `Scheduler.TickKeepsInv` | dev/timer.c:35-45 | A timer interrupt keeps the run queue well formed, whether it switches or not |
| `Scheduler.SpawnKeepsInv` | thread/thread.c:143-161 | Starting a thread keeps the run queue well formed |
| `Scheduler.RemoveKeepsInv` | thread/thread.c:319-353 | thread_exit of any task but the caller and idle, runnable or not, keeps the run queue well formed and takes exactly that task off the ready list |
| `Scheduler.ScheduleFrame` | thread/thread.c:178-208 | schedule parks nobody and, apart from idle, wakes nobody |
| `Scheduler.ScheduleSlices` | thread/thread.c:182-190 | schedule fills the slice of a caller that is still RUNNING up to its priority; no other slice and no priority changes |
| `Scheduler.BlockSlices` | thread/thread.c:211-220 | thread_block changes no slice and no priority |
| `Scheduler.YieldSlices` | thread/thread.c:243-252 | thread_yield changes no slice and no priority: the caller keeps what it had left |
| `Scheduler.TickSlices` | dev/timer.c:35-45 | The timer takes one tick from the running task and nothing from others; with none left the slice is filled and schedule is called |
| `Scheduler.ScheduleAlone` | thread/thread.c:197-206 | With nobody else ready, a RUNNING caller goes on and after one that gave way idle runs |
| `Scheduler.SpawnLast` | thread/thread.c:143-161 | A new task joins behind everybody with a full slice; order and slices of the others stay |
| `Scheduler.UnblockRunsNext` | thread/thread.c:223-240 | A woken thread is the next to run, whether the caller blocks, yields or is preempted |
| `Scheduler.UnblockOrder` | thread/thread.c:233-235 | Threads already queued keep their order, one place further back; no other task changes |
| `Scheduler.PositionAfterCalls` | thread/thread.c:178-240 | Until it gets the CPU, a task moves one place towards the front with each call of schedule and one place back with each wake-up, whatever else happens |
| `Scheduler.RunsAfterCalls` | thread/thread.c:178-240 | The thread at position k of the ready list runs right after the call of schedule that is one more than k and the wake-ups since then, and not before |
| `Scheduler.RunsWithinBudget` | dev/timer.c:35-45 | It runs within the sum of ticks+1 timer interrupts over the running thread, the k threads ahead and the threads woken meanwhile |
| `Scheduler.SlicesBounded` | dev/timer.c:35-45 | The remaining slices summed in that bound never exceed the priorities |
| `Scheduler.ThreadList.Append` | lib/kern/list.c:39-42 | The thread's tag is linked in last: the order of threads gains it at the end |
| `Scheduler.ThreadList.Pop` | lib/kern/list.c:56-61 | The first tag is unlinked, and elem2entry gives the first thread of the order |
| `Scheduler.RunQueue.constructor` | thread/thread.c:373-390 | The state after thread_init is well formed |
| `Scheduler.RunQueue.DoSchedule` | thread/thread.c:178-208 | The in-place updates, with the ready list as linked list elements, are exactly the schedule step, and leave a well-formed queue; a caller that is still RUNNING gets a full slice, every other slice and every priority stays |
| `Scheduler.RunQueue.ThreadBlock` | thread/thread.c:211-220 | The in-place updates are exactly the block step |
| `Scheduler.RunQueue.ThreadUnblock` | thread/thread.c:223-240 | The in-place updates are exactly the unblock step, ASSERTs included; the thread goes to the front of the ready list |
| `Scheduler.RunQueue.ThreadYield` | thread/thread.c:243-252 | The in-place updates are exactly the yield step, ASSERT included |
| `Scheduler.RunQueue.TimerInterrupt` | dev/timer.c:35-45 | Counting down or switching is exactly the timer step |
| `Scheduler.RunQueue.ThreadExit` | thread/thread.c:319-353 | Unlinking the tag if it is on the ready list, and dropping the task, is exactly the removal step |
| `SyncProofs.StepSafe` | thread/sync.c:15-94 | From every state that satisfies the invariant, every step of any thread or interrupt satisfies the kernel's ASSERTs and keeps the invariant |
| `SyncProofs.RunKeepsInv` | thread/sync.c:15-94 | The invariant holds in every state of every run, however the threads are preempted |
| `SyncProofs.RunAsserts` | thread/thread.c:178-252 | No ASSERT of sync.c (lines 21, 34, 43, 51, 71, 83, 89) or thread.c (186, 199, 226, 230, 247) fails in any run; those inside schedule are stated for every step that calls it |
| `SyncProofs.MutualExclusion` | thread/sync.c:65-94 | At most one thread is between a completed sema_down and its sema_up; holder is NULL or that thread, and while it holds the lock holder_repeat_nr is its nesting depth |
| `SyncProofs.NoLostWakeup` | thread/sync.c:15-54 | Whenever value is positive and threads wait, a thread popped from that queue has yet to test the value again, and it can run |
| `SyncProofs.OneQueue` | thread/thread.c:178-252 | A thread is on at most one of the ready list and the wait queues, and once at most |
| `SyncOrder.QueueStep` | thread/sync.c:15-54 | In every step of the machine a signal takes exactly the first waiter off the queue and unblocks it, a caller that finds the semaphore taken joins at the end, and no other step moves the queue |
| `SyncOrder.FirstComeFirstServed` | thread/sync.c:15-54 | In every run the waiter at position k is woken by the (k+1)-st signal, which makes it the next thread to run, and by none before |
| `SyncProofs.DiskHandshake` | dev/ide.c:148-230 | expecting_intr + disk_done.value is the number (0 or 1) of commands issued and not consumed; issued, signalled and consumed commands balance, so each command has one wake-up |
| `SyncProofs.DownStep` | thread/sync.c:15-37 | A pass of sema_down finds itself off the queue and a value of at most 1, and keeps the invariant |
| `SyncProofs.InitialInv` | thread/sync.c:57-62 | The state after initialisation satisfies the invariant |
| `SyncClass.Machine.SemaDownLock` | thread/sync.c:15-37 | The in-place pass of sema_down on a lock is exactly the step of the transition system |
| `SyncClass.Machine.SemaDownDisk` | thread/sync.c:15-37 | The same for disk_done |
| `SyncClass.Machine.SemaUp` | thread/sync.c:39-54 | The first waiter is woken and the value becomes 1 |
| `SyncClass.Machine.LockUp` | thread/sync.c:81-94 | The sema_up of lock_release is exactly the step of the transition system |
| `SyncClass.Machine.IntrHdHandler` | dev/ide.c:337-354 | The handler is exactly the disk interrupt step |
| `Processes.StepKeeps` | userproc/wait_exit.c:117-169 | Fork, exit, wait and pid release keep the process invariant |
| `Processes.RunKeepsInv` | userproc/wait_exit.c:117-169 | The process invariant holds in every state of every run |
| `Processes.ForestSafety` | userproc/wait_exit.c:108-169 | Every parent pid other than -1 names one present process that is the true or adoptive parent and does not hang; a hanging process has no children; pids are distinct |
| `Processes.FreedPidUnnamed` | thread/thread.c:72-88 | A free or just released pid is named by nobody, as pid or as parent, so its reuse adopts nobody |
| `Processes.ReapedOnce` | userproc/wait_exit.c:117-145 | Each exit is reaped at most once, with its own status narrowed to 8 bits |
| `Processes.NoSleepOnHangingChild` | userproc/wait_exit.c:139-168 | No process but init sleeps in sys_wait over a hanging child, and init only over a child it adopted |
| `Processes.StepFrame` | userproc/wait_exit.c:108-168 | What each step does to the processes other than its caller, field by field: only a reaped child goes, only children of an exiting process change parent, only a waiting parent of a hanging process wakes |
| `Processes.FirstHangingAt` | lib/kern/list.c:87-100 | The child found is the one with no hanging child before it on the list |
| `Processes.OldestReaped` | userproc/wait_exit.c:117-137 | In every run sys_wait reaps the hanging child that was created first, and returns its pid and its status |
| `Processes.InitSleepsOnAdoptedChild` | userproc/wait_exit.c:157-165 | A run in which init does sleep over a hanging child that it adopted |
| `Processes.Int8` | userproc/wait_exit.c:151-151 | The stored status is the passed one modulo 256, and equal to it within -128..127 |
| `Processes.ProcTable.FindHangingChild` | userproc/wait_exit.c:100-124 | The traversal returns the hanging child at the least index of the list, or nothing exactly if no child hangs |
| `Processes.ProcTable.FindChild` | userproc/wait_exit.c:92-97 | The traversal finds a child exactly if there is one |
| `Processes.ProcTable.AdoptChildren` | userproc/wait_exit.c:108-113 | Exactly the children of that pid change their parent, to init |
| `Processes.ProcTable.Pid2Thread` | thread/thread.c:364-370 | The traversal finds a process of that pid exactly if there is one |
| `Processes.ProcTable.ExitAdopting` | userproc/wait_exit.c:148-161 | The in-place updates are the first step of sys_exit |
| `Processes.ProcTable.ExitHanging` | userproc/wait_exit.c:163-169 | The in-place updates, waking the parent first, are the last step of sys_exit |
| `Processes.ProcTable.WaitPass` | userproc/wait_exit.c:117-145 | A pass of sys_wait reaps, sleeps or fails exactly as the transition system says; the pid and the status returned are those of the earliest hanging child on the list |
| `HeapProofs.MallocKeepsInv` | kern/memory.c:340-443 | sys_malloc keeps the heap invariant, whatever it returns |
| `HeapProofs.FreeKeepsInv` | kern/memory.c:560-613 | sys_free of a live pointer keeps the heap invariant |
| `HeapProofs.RunKeepsInv` | kern/memory.c:340-613 | In every run, in which pages outside all arenas may be taken and given back by others, each small arena's count is the number of its blocks on the free list, lists have no duplicates and no block of a released page |
| `HeapProofs.OtherPageKeepsInv` | kern/memory.c:164-172 | A page that no arena covers may change hands, as PCBs and page directories do, without touching the heap |
| `HeapProofs.RegionInArena` | kern/memory.c:328-337 | A live region, of the requested size, lies behind the header inside its own arena |
| `HeapProofs.LiveRegionsApart` | kern/memory.c:340-443 | Two live regions never overlap |
| `HeapProofs.LiveRegionsSafe` | kern/memory.c:340-443 | No live region overlaps an arena header or a free block |
| `HeapProofs.MallocReturnsFresh` | kern/memory.c:340-443 | A returned pointer was not live and is the only change to the live regions; without one nothing changes; NULL, a halt and a run past the pool each happen exactly for the stated requests and page grants |
| `Heap.GrantCauses` | kern/memory.c:41-161 | The grant for n pages is a halt exactly on a full page bitmap or for lack of frames, NULL exactly if no run fits, a run past the pool exactly by the overrun of the scan, else first fit |
| `Heap.GuardedGrant` | lib/kern/bitmap.c:47-63 | With the last page or the bit behind the bitmap taken, no grant passes the pool |
| `HeapProofs.ReleasedWithLastBlock` | kern/memory.c:586-610 | An arena's pages go back exactly when its last live block is freed |
| `HeapProofs.FullArenaListed` | kern/memory.c:599-607 | When the count says full, every block of the arena is on the list: the ASSERT at line 605 |
| `HeapProofs.MallocThenFree` | kern/memory.c:340-613 | Freeing what was just allocated restores the heap, except that a listed block returns to the tail of its list |
| `HeapOrder.FreedLast` | kern/memory.c:593-596 | A block that is freed goes behind every block of its class that stays free |
| `HeapOrder.OrderKept` | kern/memory.c:422-440 | Two blocks that stay free keep their order, also when an arena is given back |
| `HeapOrder.ReusedInOrder` | kern/memory.c:340-613 | In every run, of two blocks that are free the one freed first is handed out first |
| `HeapClass.Arenas.SysMalloc` | kern/memory.c:340-443 | Scanning bitmap bytes, splitting arenas and popping lists gives exactly the outcome and the heap of the specified step, including a halt for lack of frames and a run past the pool |
| `HeapClass.Arenas.SplitArena` | kern/memory.c:421-432 | The loop lists every block of a new arena once, in order; the ASSERT at line 429 holds |
| `HeapClass.Arenas.SysFree` | kern/memory.c:560-613 | The loops and list operations compute exactly the specified step |
| `HeapClass.Arenas.UnlinkArena` | kern/memory.c:601-607 | Every block of the arena leaves the free list; the ASSERT at line 605 holds each time |
| `HeapClass.Arenas.FindDesc` | kern/memory.c:398-404 | The loop finds the smallest block size that holds the request |
| `HeapClass.Arenas.VaddrGet` | kern/memory.c:41-66 | The scan of the bitmap bytes decides, over one bit too many for more than one page; exactly the bits found are set |
| `HeapClass.Arenas.GetPages` | kern/memory.c:136-161 | The page part of malloc_page gives exactly the specified grant |
| `HeapClass.Arenas.VaddrRemove` | kern/memory.c:479-496 | Exactly those bits are cleared |
| `HeapClass.PastThePool` | lib/kern/bitmap.c:47-63 | A heap and a request for two pages for which sys_malloc runs past the pool |
| `Paging.PdePtrReaches` | kern/memory.c:83-88 | Through the self-map, pde_ptr(v) reaches v's directory entry, for every address, with full access rights |
| `Paging.PtePtrReaches` | kern/memory.c:69-80 | Through the self-map, pte_ptr(v) reaches the entry that governs v, with the rights that v's directory entry grants, and faults exactly if v has no table, for every address |
| `Paging.SamePage` | kern/memory.c:69-88 | Two addresses have the same indexes exactly if they are on the same page |
| `Paging.AddedTranslate` | kern/memory.c:103-133 | After page_table_add v translates to p and is accessible from user mode and writable, and every other address outside the window keeps its translation and its access rights unless the same entry governs it, also when a table is installed |
| `Paging.AddedOpen` | kern/memory.c:103-133 | page_table_add leaves everything mapped accessible from user mode and writable |
| `Paging.RemovedOpen` | kern/memory.c:468-476 | So does page_table_pte_remove |
| `Paging.AddedMapping` | kern/memory.c:103-133 | Without aliased tables, the page-to-frame map gains exactly one pair |
| `Paging.SlotsApart` | kern/memory.c:69-80 | Without aliased tables, two pages share an entry only if they are the same page |
| `Paging.RemovedMapping` | kern/memory.c:470-476 | page_table_pte_remove takes exactly one pair out of the map, and leaves the directory alone |
| `Paging.AddRemove` | kern/memory.c:103-133 | Adding a page and removing it restores the map |
| `Pages.MallocKeepsInv` | kern/memory.c:136-161 | Allocation keeps: bits agree with the map, no two pages share a frame, every mapped pool frame has its bit set, pages lie in their own pool |
| `Pages.FreeKeepsInv` | kern/memory.c:499-557 | Freeing keeps the same invariant |
| `Pages.MallocFresh` | kern/memory.c:136-161 | Allocation changes no existing mapping and takes no frame in use |
| `Pages.MallocThenFree` | kern/memory.c:136-557 | mfree_page after malloc_page restores bitmaps, map and frames, except the frames of new page tables |
| `Pages.UsedDeterminesBits` | kern/memory.c:447-467 | The set of used frames determines both pool bitmaps |
| `PageAllocator.Kernel.Pmalloc` | kern/memory.c:91-100 | The least free frame of the pool, and only it, becomes used |
| `PageAllocator.Kernel.Pfree` | kern/memory.c:447-467 | The pool is found from the address, and exactly that frame becomes free |
| `PageAllocator.Kernel.ZeroTable` | kern/memory.c:129-129 | memset through the window zeroes exactly the words of v's page table |
| `PageAllocator.Kernel.InstallTable` | kern/memory.c:122-129 | A fresh frame becomes v's page table, zeroed through the window; its directory entry grants user access and writing |
| `PageAllocator.Kernel.PageTableAdd` | kern/memory.c:103-133 | Loads and stores through the window have exactly the specified effect on memory; the ASSERTs hold; v then translates to the frame, accessible from user mode and writable |
| `PageAllocator.Kernel.GetAPage` | kern/memory.c:229-242 | One page gets one new frame, accessible from user mode and writable; the map gains that pair and the tables at most one new frame; it halts if the pool is full, and otherwise only if a table is needed and the kernel pool has no frame for it |
| `PageAllocator.Kernel.VaddrGet` | kern/memory.c:41-66 | The scan of the virtual bitmap's bytes decides, over one bit too many for more than one page; exactly the bits found are set |
| `PageAllocator.Kernel.FindRun` | kern/memory.c:41-66 | A halt, NULL, a run past the pool or the first fit, exactly as the bits and the bit behind them say |
| `PageAllocator.RunCauses` | kern/memory.c:41-66 | The causes: a full bitmap or the ASSERT on the user stack page halts, no fit is NULL, the overrun of the scan passes the pool, else first fit |
| `PageAllocator.GuardedPool` | kern/memory.c:63-63 | With the stack page taken, no run passes the user pool and none starts on that page, so the ASSERT holds |
| `PageAllocator.Kernel.MapPages` | kern/memory.c:149-160 | The loop maps the pages, in order, to new and pairwise different frames of the pool; it stops only when that pool, or the kernel's for a page table, is full |
| `PageAllocator.Kernel.MallocPage` | kern/memory.c:136-161 | malloc_page has exactly the specified effect, starting at the first fit, and keeps the invariant; it halts, returns NULL or passes the pool exactly as FindRun does, or halts with its own or the kernel's frame pool full |
| `PageAllocator.Kernel.AddrV2p` | kern/memory.c:222-226 | addr_v2p agrees with the hardware walk on every mapped address |
| `PageAllocator.Kernel.PteRemove` | kern/memory.c:470-476 | Clearing P through the window has exactly the specified effect |
| `PageAllocator.Kernel.UnmapPages` | kern/memory.c:499-557 | The loop releases exactly the frames and pairs of these pages; the ASSERTs on pools hold |
| `PageAllocator.Kernel.MfreePage` | kern/memory.c:499-557 | mfree_page has exactly the specified effect; the invariant survives exactly if no page freed backs the active directory or one of its tables |
| `PageAllocator.Kernel.AllocateAndRelease` | kern/memory.c:136-557 | Running both on page table words and bitmaps restores everything but the frames of new page tables; failure has exactly the causes of malloc_page |
| `Fork.CreatePageDir` | userproc/process.c:82-100 | The loops copy the kernel entries and map the directory onto itself, readable and writable through its window, and change nothing else |
| `Fork.NewDirTranslate` | userproc/process.c:82-100 | In the new directory kernel addresses translate as in the old one, with the same access rights, and user addresses fault |
| `Fork.ChildReady` | userproc/process.c:82-100 | A directory made by create_page_dir meets all that copy_body_stack3 relies on |
| `Fork.CopyPage` | userproc/fork.c:68-78 | memcpy of a page through the active directory copies its 1024 words and changes nothing else |
| `Fork.CopyOne` | userproc/fork.c:64-81 | One page reaches the child, by way of the buffer and two directory switches, in a frame nobody used; no other user frame changes; it fails only with a full frame pool |
| `Fork.CopyBodyStack3` | userproc/fork.c:43-90 | After the byte and bit loops the child's user pages are exactly the set bits, each with the parent's words in a new frame; the parent's map and words are as before; it fails only with a full frame pool |
| `Fork.ForkIsolates` | userproc/fork.c:43-90 | Page by page: same address, same words, accessible from user mode and writable, and a frame that no page of the parent maps |
| `Files.TableRoundTrip` | fs/file.c:346-426 | An indirect table written to disk is read back word for word |
| `Files.FileSame` | fs/file.c:264-490 | A file none of whose sectors changed has the same blocks and contents |
| `Files.GrowKeeps` | fs/file.c:300-455 | Growing a file by unused blocks keeps the blocks in use the disjoint union of all owners |
| `Files.ReplaceKeeps` | fs/dir.c:125-378 | So does exchanging the blocks of a file or directory for blocks nobody else owns |
| `Files.ReleaseKeeps` | fs/inode.c:189-244 | So does giving back exactly the blocks of one file |
| `Files.GrowThenRelease` | fs/file.c:300-455 | Growing and then releasing leaves in use what was before, less what the file had |
| `FileSystem.Fs.constructor` | fs/fs.c:120-165 | After formatting, the root directory owns block 0 and inode 0, every other set bit is padding, the root's record is on the disk and every other record is zero: the invariant holds |
| `FileSystem.SameMeans` | fs/file.c:264-490 | An inode whose blocks are the same keeps its contents if it is a file and its rows if it is a directory |
| `FileSystem.Fs.BlockBitmapAlloc` | fs/file.c:69-77 | The least block not in use, and only it, becomes used; it fails exactly on a full bitmap |
| `FileSystem.Fs.FirstBlock` | fs/file.c:300-315 | A file written for the first time gets a fresh block 0; afterwards it has size/512 + 1 blocks |
| `FileSystem.Fs.AllocLoop` | fs/file.c:399-424 | The allocation loops fill exactly the slots asked for with fresh, distinct blocks, and fail exactly with fewer free blocks than slots |
| `FileSystem.Fs.Collect` | fs/file.c:317-455 | In all four cases inode and indirect table end up holding the blocks that the new size needs, and all_blocks has every block to be written |
| `FileSystem.Fs.WriteLoop` | fs/file.c:457-484 | The contents become old ++ buf, only blocks of the file are written, and fd_pos ends one before the end in 32 bits |
| `FileSystem.Fs.WriteData` | fs/file.c:264-484 | -1 exactly above 71680 bytes, a halt exactly at 71680 or with fewer free blocks than the new size needs, else contents old ++ buf, every other file and directory unchanged, only fresh blocks added, both bitmaps exact |
| `FileSystem.Fs.FileWrite` | fs/file.c:264-490 | The same for the whole call, with the sync at its end: the 512-byte buffer is overrun exactly for a straddling record, then the second sector on disk is the memory behind it; else exactly record no % 256 is written, and below 256 a fresh read gives the inode |
| `FileSystem.Fs.ReadCollect` | fs/file.c:519-582 | Every case collects the blocks from the first to the last one; the ASSERTs on i_sectors[12] hold |
| `FileSystem.Fs.FileRead` | fs/file.c:493-607 | For every position and count: -1 exactly at the end, a halt exactly if the first or the last block is 139 or more, an overrun exactly for a position beyond the end or a sum that wraps around, else contents[pos..min(pos+count, size)] |
| `FileSystem.Fs.InodeSync` | fs/inode.c:93-127 | A sync touches no block of any inode, and writes the record or overruns as InodeTable says |
| `FileSystem.Fs.Load` | fs/inode.c:42-90 | An inode that is open is the one in memory, any other is its record |
| `FileSystem.Fs.InodeRelease` | fs/inode.c:189-244 | The ASSERT at line 192 halts exactly if opening gives another number; if it gives the inode itself, exactly the bits of its own blocks and table, and its own inode bit, are cleared, and exactly its record is zeroed; every other file and directory is untouched |
| `FileSystem.Fs.CreateInode` | fs/file.c:59-66 | The least free number becomes a file that owns no block; it fails exactly on a full inode bitmap |
| `FileSystem.Fs.WriteThenRead` | fs/file.c:264-607 | Reading back what was written returns it, or halts exactly from block 139 on; the write fails exactly as file_write does |
| `FileSystem.Fs.CreateWriteRelease` | fs/inode.c:151-244 | A file created, written, closed and released restores both bitmaps bit for bit if its number is below 256 and its sync was not clobbered; from 256 on the release stops at line 192 exactly if the old record carries another number; failures have exact causes |
| `FileSystem.WriteRecords` | fs/file.c:486-486 | A write keeps the inode table right exactly if the memory behind the 512-byte buffer agrees with what was read wherever an inode in use lies |
| `InodeTable.DecodeRecord` | fs/inode.c:103-126 | The 76 bytes of a record give back number, size and block array |
| `InodeTable.RecordLayout` | inc/inode.h:9-22 | Where each field lies in the 76 bytes: i_no, i_size, zeros for i_open_cnts and write_deny, the 13 block numbers, zeros for the tag |
| `InodeTable.LocateFits` | fs/inode.c:23-39 | A record lies within the one or two sectors transferred for it, two exactly if it crosses a boundary, and those within the 608 of the table |
| `InodeTable.SyncRecord` | fs/inode.c:93-127 | No sector outside the table changes; with a buffer that suffices exactly record no % 256 is written; a straddling record through one sector writes the memory behind the buffer to the second sector |
| `InodeTable.ShortSyncHarmless` | fs/inode.c:111-119 | Such an overrun changes exactly the 76 bytes of the record exactly if the memory behind the buffer is, at the write, what was read into it |
| `InodeTable.Inodes.InodeSync` | fs/inode.c:93-127 | The in-place form: the buffer suffices exactly from 512, or 1024 for a straddling record |
| `InodeTable.SyncThenOpen` | fs/inode.c:42-127 | Below 256 a fresh open returns what was synced, and no other record changes, straddling or not |
| `InodeTable.SyncReadsBack` | fs/inode.c:93-127 | In general it returns what was synced exactly if the number is below 256 or the record held it already |
| `InodeTable.SyncClobbers` | fs/inode.c:96-99 | A number of 256 or more overwrites the record of another inode |
| `InodeTable.SmallBuffer` | fs/file.c:486-486 | The 512-byte buffer of file_write is too small exactly for records that start in the last 75 bytes of a sector, first for inode 6 |
| `InodeTable.Inodes.InodeDelete` | fs/inode.c:164-186 | Exactly that record is zeroed |
| `InodeTable.ReadRecord` | fs/inode.c:59-82 | The bytes read are the record, straddling or not |
| `Records.SyncKeeps` | fs/inode.c:93-127 | A sync of a number below 256 puts its record in place and leaves every other record of an inode in use |
| `Records.SyncSpoils` | fs/inode.c:96-99 | A sync of a number from 256 on spoils the record of an inode in use with the same last eight bits |
| `Records.ShortSyncKeeps` | fs/inode.c:111-119 | A short sync keeps the inode table right exactly if the memory behind the buffer fits |
| `Records.ClobberedSeven` | fs/inode.c:111-119 | A case in which it does not: zeros behind the buffer of inode 6 spoil the record of inode 7 |
| `Records.WriteTable` | fs/fs.c:143-149 | The table written at format time holds the root's record and zeros |
| `InodeTable.Inodes.InodeOpen` | fs/inode.c:42-90 | The listed inode with one more open, or the record on disk, whatever number it carries; the list stays in order (each number once, with its outstanding opens) exactly if that number is its own |
| `InodeTable.Inodes.InodeClose` | fs/inode.c:130-148 | The inode leaves the list exactly with its last close; all others stay |
| `Directory.EntryBack` | fs/dir.c:114-122 | A 24-byte entry with a name of at most 15 characters is read back |
| `Directory.EntryLayout` | inc/dir.h:21-26 | Where each field lies in the 24 bytes: the name and its NULs, then i_no, then f_type, least significant byte first |
| `Directory.PutRowAt` | fs/dir.c:228-229 | Writing one row of a sector changes that row only |
| `Directory.InsertDict` | fs/dir.c:125-243 | Filling a free row adds one name to the map |
| `Directory.DeleteDict` | fs/dir.c:246-378 | Emptying a row removes one name from the map |
| `Directory.CutInsert` | fs/dir.c:154-216 | An entry put behind a new indirect table gives the old map and the entry exactly if no entry lay behind an old table |
| `Directory.LiveRowsDict` | fs/dir.c:381-446 | The rows enumerated are the entries of the map, each once |
| `Directory.EmptyIsDots` | fs/dir.c:449-454 | The size is 48 exactly if the map has only "." and ".." |
| `Directory.EmptyHasOneBlock` | fs/dir.c:459-466 | A directory with only "." and ".." has only its first block |
| `DirectoryOps.SearchDirEntry` | fs/dir.c:34-101 | Over all 140 blocks, a non-empty name is found exactly if the map has it, with its entry; the empty name matches a free row |
| `DirectoryOps.SyncDirEntry` | fs/dir.c:125-243 | The entry goes into a direct block as long as a direct row is free, else behind a new table; it halts exactly with fewer free blocks than that takes; the file system stays in order and the map gains just the entry exactly if a direct row is free or there is no table yet; else exactly the entries behind the old table are lost |
| `DirectoryOps.FewEntries` | fs/dir.c:151-239 | With fewer than 252 entries a direct row is free |
| `DirectoryOps.LaterOverflow` | fs/dir.c:178-201 | A second table makes the first one a block that is marked in use and owned by nobody, and loses its entries |
| `DirectoryOps.FindRoom` | fs/dir.c:151-239 | The loops find the first free row in the direct blocks, or the first missing block; block 12 always looks missing |
| `DirectoryOps.ScanBlock` | fs/dir.c:277-305 | One pass tells the first block, counts the ordinary entries and finds the target; the ASSERT at line 299 holds |
| `DirectoryOps.DeleteDirEntry` | fs/dir.c:246-378 | An ordinary entry of that inode is found exactly if there is one; the map loses its name, the size 24, no other inode changes and the bitmap stays exact; it never returns exactly if the entry is alone in a block behind the table |
| `DirectoryOps.RemoveTarget` | fs/dir.c:314-371 | The block is given up exactly if it is not the first and held only that entry |
| `DirectoryOps.DirRead` | fs/dir.c:381-446 | From position 24*r the r-th live row is returned, NULL exactly at the end; the ASSERT at line 434 holds |
| `DirectoryOps.ReadAll` | fs/dir.c:381-446 | Reading from 0 until NULL returns every live row exactly once, in order |
| `DirectoryOps.DirIsEmpty` | fs/dir.c:449-454 | True exactly if the map has only "." and ".." |
| `FileTree.Format` | fs/fs.c:120-165 | A formatted partition has a tree of just the root, whose record is on the disk |
| `FileTree.FileCreate` | fs/file.c:104-194 | A new file: the least free number, one new name in the parent, both records on disk below 256, no other inode changed; it halts exactly without a free number or with fewer free blocks than the entry takes |
| `FileTree.CreateOrdered` | fs/file.c:104-194 | In a file system in order, it stays in order exactly if the new number is below 256 |
| `FileTree.SysMkdir` | fs/fs.c:605-668 | The same for a new directory with "." and ".." in a block of its own |
| `FileTree.MkdirOrdered` | fs/fs.c:605-668 | It too stays in order exactly if the new number is below 256 |
| `FileTree.SysUnlink` | fs/fs.c:557-559 | Exactly that name, its inode and its blocks go, and every other inode and directory is untouched, exactly if the record is that of the inode; it stops at fs/inode.c line 192 exactly if the record carries another number, and hangs exactly as delete_dir_entry does; in order, it stays in order |
| `FileTree.SysRmdir` | fs/fs.c:748-787 | A directory, as its record gives it, is refused exactly if it has more than "." and ".."; an empty one goes with its entry, its block and its inode; the ASSERT at fs/dir.c line 464 holds; in order, it stays in order |
| `FileTree.TreeRemove` | fs/fs.c:557-559 | Removing an entry with its inode keeps: one entry for each inode but the root, and every entry names an inode of its kind |
| `FileTree.WriteFile` | fs/file.c:264-490 | Writing an open file keeps bitmaps and tree; the inode table stays right exactly if the memory behind the buffer of the sync fits |
| `FileTree.Perform` | fs/fs.c:512-787 | Any mixture of creating, opening, closing, writing, making and removing, within the stated limits, keeps both bitmaps the disjoint union of their owners, the tree in order and every record on the disk; each call halts exactly as stated |
| `FailingRuns.OneTooMany` | fs/inode.c:96-192 | A run from format to the 257th inode, whose unlink stops at line 192 |
| `FailingRuns.NeverUnlinked` | fs/dir.c:331-340 | A run that fills the root and adds one entry, whose unlink never returns |
| `FailingRuns.OverfullTwice` | fs/dir.c:178-201 | One more entry there, after which a block in use has no owner |
| `Ide.Drive.IdeRead` | dev/ide.c:148-188 | Commands of at most 256 sectors, counted in one byte, deliver exactly the sectors asked for, in order; it halts exactly for no sectors or if the last command would start beyond max_lba |
| `Ide.Drive.IdeWrite` | dev/ide.c:191-230 | They replace exactly the sectors asked for, and no other; it halts in the same cases |
| `Ide.Meant` | dev/ide.c:113-121 | A count byte stands for the number it was narrowed from, 0 for 256 |
| `Ide.WriteThenRead` | dev/ide.c:148-230 | What was written is read back |
| `Path.PathParse` | fs/fs.c:173-187 | For any path, absolute or relative, the first component and the place of the next slash, for any number of slashes |
| `Path.WashPath` | shell/buildin_cmd.c:424-465 | The buffer surgery equals a stack fold over the components: "." ignored, ".." pops and stays at the root |
| `Path.WashStep` | shell/buildin_cmd.c:441-459 | One component: cutting at the last slash pops, appending pushes |
| `Path.LastSlash` | shell/buildin_cmd.c:444-444 | The index of the last slash |
| `Path.NormalIdempotent` | shell/buildin_cmd.c:424-465 | Washing twice equals washing once |
| `Path.NormalUp` | shell/buildin_cmd.c:441-450 | Going down one component and up again gives the path back; at the root ".." stays |
| `Path.NormalParent` | shell/buildin_cmd.c:441-450 | ".." takes away exactly the last component, if there is one |
| `Path.NormalDown` | shell/buildin_cmd.c:451-459 | An ordinary component is added at the end, with one slash |
| `Path.NormalDot` | shell/buildin_cmd.c:451-461 | "." and a slash at the end change nothing |
| `Path.NormalRoot` | shell/buildin_cmd.c:430-450 | "/" and "/.." give the root |
| `Path.NormalComponents` | shell/buildin_cmd.c:424-465 | The result has no ".", ".." or empty component, and only components of the input |
| `Path.NormalClean` | shell/buildin_cmd.c:424-465 | The result starts with a slash, doubles none, and ends in none but for the root |
| `Path.NormalFits` | shell/buildin_cmd.c:424-465 | The result is no longer than the absolute path given |

## Left out

- Boot code, interrupt entry, the assembly context switch, port I/O, TSS and GDT set-up, console output: only their effect (who runs, which directory is active) is modelled.
- The TLB: a page table edit takes effect at once; `invlpg` and CR3 reloads are not modelled.
- File names of 16 characters: they fill the field without a terminator, so names of at most 15 characters are required.
- Path components of 16 characters or more: they overrun the name buffer of `wash_path`.
- What happens to memory after an overrun: a run past a pool (`Beyond`, `Wild`), a read past the file (`Overrun`) and the bytes behind a short sync buffer end what is promised about memory; the sync's effect on the disk is modelled.
- FileSystem.Fs.FileWrite: `sys_malloc` of its buffers is taken to succeed; with NULL the code returns -1 (and leaks the first buffer).
- FileSystem.Fs.InodeRelease: a record that carries the right number but stale blocks, as a clobbered sync can leave it, ends the model (`Stale`); the code goes on and frees the stale blocks.
- FileTree.SysRmdir: requires that opening the directory and its parent gives them; with a spoilt record the code goes on with another inode.
- HeapClass.Arenas.SysMalloc: whether the frames suffice is an input; when they do is PageAllocator.Kernel.MallocPage.
- What `sys_malloc` stores: the heap model has addresses and sizes, not contents, so clearing a block with `memset` is not modelled.
- How often an inode is open: FileSystem keeps the set of open inodes, the counts are in InodeTable.Inodes.
- FileTree.SysUnlink: the path search and the table of open files that `sys_unlink` consults are not part of it; the parent and the name are given.
- FileTree.FileCreate: the file table slot and the rollback for a failed `sys_malloc` are not part of it.
- Fork.CopyBodyStack3: requires that set bits are mapped and that the buffer page is a kernel page of its own; Fork.ChildReady derives the rest from `create_page_dir`.
- Scheduler.RunQueue.ThreadExit: a caller that ends itself (`need_schedule` set) is not modelled; no code in the kernel does so.
- SyncClass.Machine.SemaUp: requires what the ASSERTs demand; that this holds in every run is SyncProofs.RunAsserts.
- Processes.ProcTable.ExitAdopting: a process without a parent is a PANIC in `sys_exit` and cannot take this step.
- Pointer form of the wait queues, the heap's free lists and the list of open inodes: they are sequences here; the ready list is the linked list of Lists.dfy.
- The block and inode bitmaps on disk: `bitmap_sync` is not modelled, since the indirect table's bit is not synced on its own; ownership is stated for the bitmaps in memory.
- `holder_repeat_nr` as a 32-bit counter: nesting depth is unbounded in the model.
- `identify_disk` at start-up, which talks to the disk without the channel's lock.
- Ide.Drive.IdeRead: a disk that stays busy is a PANIC in the code and is not modelled; the waiting is in Sync.
- Page conservation over a process lifetime: fork rounds the number of bitmap pages up and exit rounds it down.
- Reuse of the PCB page in `thread_exit`, which reads the pid after the page was freed: a process is an abstract record.
- Sharing of file table slots across fork, and user heaps after fork.
- The padding computed by `partition_format`, mounting and partition scanning: the bitmap of a new file system is any bitmap with bit 0 set.
- `sys_open`, `sys_lseek`, `sys_stat` and the other file system calls: they look up paths and descriptors and call the operations modelled here.
- `dev/ioqueue.c`, `shell/pipe.c`, ELF loading, keyboard decoding, formatted printing and shell dispatch: separate from the memory, process and file system state modelled here.
