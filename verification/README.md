# Amethyst, verified in Dafny

A Dafny model of the hard parts of the Amethyst kernel and of two libraries beside it, with proofs of what
they promise. `dafny verify dfyconfig.toml` checks everything.

Code that works in place is modelled in place: classes with the source's fields, loops with invariants, linked
lists followed link by link where the source's own links are the point. Each such method is proved against a
function or a predicate on values, and the promises are proved about those, for every input and every run.

| files | what they model |
|---|---|
| `Scheduler`, `Semaphore`, `SleepProof`, `SleepTheorems` | run queues, context switch hand-off, semaphores and mutexes as a step system of many CPUs; the invariant of every run; the theorems |
| `ThreadLists`, `SchedulerCode` | the intrusive thread lists; the C functions on them, proved to take those steps |
| `SlabLayout`, `SlabLists`, `SlabState`, `SlabCode` | the slab allocator: address arithmetic, the three linked slab lists, free lists in and out of page, allocation and freeing |
| `Heap`, `HeapCode` | `kmalloc`, `krealloc`, `kfree` over twelve slab caches, seen as one map from pointer to bytes |
| `FlatFile`, `PageCache`, `FileIo` | `vfs_read` and `vfs_write` over the page cache and tmpfs, seen as one byte sequence per file |
| `RangeList`, `RangeLinks`, `RangeWalk`, `AddressSpace`, `AddressRuns` | the ranges of an address space: first fit, sorted insertion with merging, removal of an interval by splitting and unlinking, what stale links do to it; whole runs of maps and unmaps |
| `Timer`, `TimerCode` | the timer queue and the record of what fired when |
| `Ring`, `Keyboard` | the byte ring and the keyboard events that go through it |
| `Bitmap` | the block bitmap allocator |
| `ElfLoad`, `ElfStack` | loading a program header; building the initial stack |
| `Lookup`, `LookupLaws` | path lookup with mounts and reference counts; its laws on the tree |
| `Base32`, `Calendar` | base32; seconds from a broken-down time |
| `Bytes`, `Paging` | bytes, memory as a map, rounding |

## How the model reads the source

- Locks are not modelled as data except where they are the argument: a thread's sleep lock and a semaphore's
  lock. A pass through `yield` or `preempt_callback` with `switch_thread` is one step, `semaphore_wait` is the
  part up to the sleep and the yield, `semaphore_signal` is the pop and the wake-up.
- The step system keeps run queues and waiters as sequences. The code keeps them as the source does, in the
  threads' own links with `head`, `last` and `tail`; the sequences are ghost state there, and every list operation
  is proved to do to them what the step does.
- What the model does not see is a parameter with a contract: memory granted by `vmm_map` to a slab cache is
  memory no cache uses; while entries are queued the timer device reports at most the ticks it was armed for; free physical pages, further
  mappings and further file reads run out when the caller says so.
- An `assert` of the source is a precondition where it binds the caller, and is proved where the source relies
  on it: the "existing thread" assert of `sched_wakeup`, the null free word of `returnobject`, the full event of
  `keyboard_wait`.
- Numbers are unbounded except where width matters: 64-bit wrap-around in `bytes_to_pages` and in the overflow
  tests of `vfs_read` and `vfs_write`, 32-bit `int` on the fast calendar path, truncating division.

## Where the code does not do what one would expect

Each is stated exactly: what happens, and the condition, known before the call, under which the expected holds.

- A slab cache whose slabs hold fewer than two objects puts a slab on the wrong list with the first allocation
  that is not refused (`Alloc`, both directions; `SmallSlabExample`); `CountAtLeastTwo` says which sizes and
  alignments those are.
- A slab cache can keep the alignment it was asked for exactly when that divides the page size (`AlignmentExact`,
  `AlignmentExample`).
- Inserting a range in the middle of the list without merging leaves the successor's `prev` stale (`InsertRange`,
  `Map`, `MiddleInsertExample`).
- `change_map` unlinks through that `prev`. It leaves the list it is meant to exactly when the first range it is to
  unlink has its `prev` right (`ChangeMap`, `CutListExact`). Otherwise either ranges outside the interval drop out of
  the list, their pages still mapped (`LostRangeExample`: map 0x1000, 0x5000, 0x3000, unmap 0x5000, and 0x3000 is
  gone), or the range stays in the list with size zero. Runs whose inserts go to an end of the list or merge never
  get there (`TidyRun`).
- An empty list is not checked against the end of the space (`Map`,
  `UncheckedExample`).
- A read or write from offset 0 of more than 2^64 - 4096 bytes has a page count that wraps to zero and moves
  nothing (`LoopCovers`, `Write`, `Read`, `LostExample`).
- Re-arming follows a null queue pointer when all entries left are one-shot and due now (`Resume`, `Insert`,
  `Isr`, `RearmExample`); it never does while a repeating entry is installed (`RepeatingLasts`).
- `sched_queue` refuses exactly a thread that is queued or running (`Queue`), and on that path returns with the
  run-queue lock held; `sched_wakeup` never gets there (`WakeupFindsSleeper`).
- A ring write across the end of the ring leaves stale bytes (`Write`, `StraddleExact`, `StraddleExample`);
  records that divide the ring are never across its end (`WholeRecords`).
- `bitmap_allocate` returns null also for a run that starts at address zero (`Allocate`).
- `load` hands `vmm_map` a file offset inside a page for headers whose address and offset differ modulo the page
  size and that have whole file pages (`MisalignedExact`, `Load`, `MisalignedExample`).
- `elf_prepare_stack` maps at once 16 to 31 bytes less than it writes; the rest falls into the part of the stack
  that is mapped on demand (`Prepare`).
- `vfs_lookup` tells the empty path from a path of separators when the parent is asked for, and refuses paths
  over 512 characters (`WalkExact`, `EmptyPathExample`).

## Model

| member | source | states |
|---|---|---|
| SleepInvariant.RunKeeps | kernel/sys/semaphore.c:61-128 | in every state of every run of waits, tests, signals, wake-ups, yields, preemptions, pins, spawns and exits on any number of CPUs, the whole invariant holds: queues, CPUs, thread flags, sleep locks, semaphore counters and hand-offs in flight |
| SleepInvariant.StepKeeps | kernel/sys/scheduler.c:90-387 | every enabled step keeps that invariant |
| SleepTheorems.WakeupFindsSleeper | kernel/sys/semaphore.c:112-128 | a signaller that gets the sleep lock of the waiter it popped finds it asleep, saved, on no CPU and no queue, and puts it on its run queue exactly once; the already-queued outcome is unreachable |
| SleepTheorems.HandoffCompletes | kernel/sys/scheduler.c:176-213 | when the sleep lock is still held, its owner is on another CPU with its yield enabled, and after that yield the signaller goes on: no deadlock in the hand-off |
| SleepTheorems.PrepareNeverSpins | kernel/sys/scheduler.c:281-287 | a thread about to block finds its own sleep lock free |
| SleepTheorems.TargetElsewhere | kernel/sys/semaphore.c:116-122 | a popped waiter whose sleep lock is held runs on a different CPU than the signaller, marked asleep |
| SleepTheorems.SleeperLetsGo | kernel/sys/scheduler.c:293-334 | the sleeper's yield leaves the signaller able to wake it |
| SleepTheorems.NoThreadLost | kernel/sys/semaphore.c:61-93 | every live thread runs, is queued or sleeps, never two of these; a sleeping thread is a waiter of its semaphore exactly when no signaller holds it in flight |
| SleepTheorems.OneCpuPerThread | kernel/sys/scheduler.c:176-213 | no thread is current on two CPUs, nor current and queued |
| SleepTheorems.RunQueuesExact | kernel/sys/scheduler.c:90-174 | in every reachable state a bitmap bit is set exactly when its queue is not empty, and a thread is flagged queued exactly when it stands in the queues once, in that of its priority |
| SleepTheorems.QueuedMeansOnce | kernel/sys/scheduler.c:145-174 | the queued flag is equivalent to one position in one queue |
| SleepTheorems.DequeuesBest | kernel/sys/scheduler.c:116-143 | the thread dequeued is the earliest eligible one of the best queue within the limit, the others keep their order and every other thread its state; none exactly when none there is eligible |
| SleepTheorems.SleeperYields | kernel/sys/scheduler.c:293-334 | when a sleeper yields, its CPU goes to the earliest eligible thread of the best of all 64 queues, to the idle thread exactly when no queued thread is eligible; the sleeper is queued nowhere, no other CPU or queue changes |
| SleepTheorems.AwakeYields | kernel/sys/scheduler.c:293-334 | a thread awake keeps its CPU, nothing changing, exactly when no eligible thread stands in a queue up to its own priority; else the earliest of the best such queue gets it and the thread goes behind everyone in its own queue |
| SleepTheorems.PreemptChooses | kernel/sys/scheduler.c:215-233 | the same for a preempted thread |
| SleepTheorems.StopChooses | kernel/sys/scheduler.c:235-256 | a CPU without a thread takes the earliest eligible thread of the best of all queues, its idle thread exactly when there is none |
| SleepTheorems.ExitChooses | kernel/sys/scheduler.c:442-452 | the same for the CPU of an exiting thread, which ends dead and on no CPU |
| SleepTheorems.SpawnQueues | kernel/sys/scheduler.c:372-386 | a new thread stands behind everyone of its priority |
| SleepTheorems.SemaphoreExact | kernel/sys/semaphore.c:61-128 | in every reachable state waiters number max(0, -i), units are conserved, and waiters are granted and made runnable in the order they blocked; that the linked list keeps that order is `InsertThread` and `NextThread` |
| SleepTheorems.CounterExact | kernel/sys/semaphore.c:61-128 | in every state of every run the counter is its initial value less one for each wait and each test that found a unit, plus one for each signal; the threads logged as blocked are exactly those whose wait found no unit, in that order |
| SleepTheorems.NoOvertaking | kernel/sys/semaphore.c:95-110 | a wait or test takes a unit on the spot only when nobody waits |
| SleepTheorems.MutexHasOneHolder | include/sys/mutex.h:8-11 | a mutex has at most one holder in every reachable state, and none exactly when its counter is 1 |
| SleepTheorems.MutexGoesTo | include/sys/mutex.h:8-11 | in every run a wait or test that finds the mutex free makes the caller its holder; a release is by the holder and hands the mutex to the thread that waits longest, to nobody when none waits |
| ThreadLists.AppendLinks | kernel/sys/scheduler.c:162-169 | linking a thread behind the last one gives the list with it at the end, linked both ways, and writes no link outside |
| ThreadLists.UnlinkLinks | kernel/sys/scheduler.c:103-111 | unlinking a thread at the head, in the middle or at the end by its own prev and next gives the list without it, linked both ways |
| ThreadLists.OnListExact | kernel/sys/semaphore.c:41-46 | a thread that waits nowhere else is on the semaphore's list exactly when it has a link or is both ends of the list |
| SchedulerCode.Scheduler.constructor | kernel/sys/scheduler.c:47-50 | at boot all lists are empty and the invariant holds |
| SchedulerCode.Scheduler.QueueGetThread | kernel/sys/scheduler.c:90-114 | following next finds the first eligible thread of the queue, and unlinking it takes out only it and leaves every run queue linked both ways; or none is eligible |
| SchedulerCode.Scheduler.DequeueNextThread | kernel/sys/scheduler.c:116-143 | the scan of queues and bitmap computes the dequeue that `DequeuesBest` is about |
| SchedulerCode.Scheduler.EnqueueThread | kernel/sys/scheduler.c:145-174 | the thread is linked behind the last of its queue and stands in the queues once, every queue linked both ways, bitmap and flags in step; the idle thread is never queued |
| SchedulerCode.Scheduler.SwitchThread | kernel/sys/scheduler.c:176-213 | the CPU's thread pointer and the threads' own view stay in step, a thread left behind asleep has its sleep lock free, no third thread is touched |
| SchedulerCode.Scheduler.Yield | kernel/sys/scheduler.c:293-334 | one pass is the yield step, keeps the invariant, and gives the CPU as `SleeperYields` and `AwakeYields` say |
| SchedulerCode.Scheduler.PreemptCallback | kernel/sys/scheduler.c:215-233 | one pass is the preemption step, keeps the invariant, and gives the CPU as `PreemptChooses` says |
| SchedulerCode.Scheduler.StopThread | kernel/sys/scheduler.c:235-256 | a CPU without a thread takes the one `StopChooses` says, and the invariant holds |
| SchedulerCode.Scheduler.ThreadExit | kernel/sys/scheduler.c:442-452 | an exiting thread ends dead, leaves its CPU for good to the best thread of all queues, and the invariant holds |
| SchedulerCode.Scheduler.Queue | kernel/sys/scheduler.c:372-386 | whatever it did before, the thread afterwards runs or stands in the run queues once, and queues, bitmap and flags agree; refused exactly for a thread queued or running |
| SchedulerCode.Scheduler.Wakeup | kernel/sys/scheduler.c:344-370 | a sleeper ends awake and in the run queues once, any other thread and all threads beside it are left alone, and queues, bitmap and flags agree |
| SchedulerCode.Scheduler.InsertThread | kernel/sys/semaphore.c:10-21 | the thread goes behind everyone who waits, and every semaphore's list is linked both ways |
| SchedulerCode.Scheduler.NextThread | kernel/sys/semaphore.c:23-39 | takes out exactly the thread that has waited longest, null exactly when nobody waits |
| SchedulerCode.Scheduler.RemoveCurrentThread | kernel/sys/semaphore.c:41-59 | takes the thread out of the list wherever it stands, and does nothing when it is not on it |
| SchedulerCode.Scheduler.Wait | kernel/sys/semaphore.c:61-93 | the counter goes down by one; the caller blocks exactly when it was not positive, and then is marked asleep with its sleep lock taken and stands behind all waiters; else no thread and no waiter changes; the invariant holds |
| SchedulerCode.Scheduler.Test | kernel/sys/semaphore.c:95-110 | succeeds exactly when the counter is positive, and then takes one; no waiter changes |
| SchedulerCode.Scheduler.Signal | kernel/sys/semaphore.c:112-128 | the counter goes up by one; exactly when it was negative the thread that waits longest is popped for the caller to wake, with the semaphore's lock kept |
| SchedulerCode.Scheduler.FinishSignal | kernel/sys/semaphore.c:112-128 | the popped thread is awake and stands behind everyone of its priority, the semaphore's lock is free, and the invariant holds |
| SlabLayout.NewShapeSound | kernel/mem/slab.c:220-243 | the sizes computed for a cache leave room for object, free word and header, in the least multiple of the alignment that does; in page, one object more would not fit below the header |
| SlabLayout.CountAtLeastTwo | kernel/mem/slab.c:228-234 | exactly which sizes and alignments give two or more objects to a slab |
| SlabLayout.TakeReturn | kernel/mem/slab.c:78-119 | free word to object and object to free word are inverse, in page and out of page, and an in-page object finds its slab header |
| SlabLayout.ObjectsApart | kernel/mem/slab.c:23-50 | no two objects of all slabs of a cache meet |
| SlabLayout.WordsApart | kernel/mem/slab.c:23-50 | no two free words meet |
| SlabLayout.ObjectOffWords | kernel/mem/slab.c:23-50 | no object meets a free word |
| SlabLayout.HeaderApart | kernel/mem/slab.c:8-15 | no object and no free word meets a slab header |
| SlabLayout.ObjAligned | kernel/mem/slab.c:23-50 | every object has the cache's alignment when that divides the page size |
| SlabLayout.AlignmentExact | kernel/mem/slab.c:220-243 | over all page-aligned placements every object is aligned exactly when the alignment divides the page size |
| SlabLayout.AlignmentExample | kernel/mem/slab.c:220-243 | 8 bytes aligned to 24: at least two objects to a slab, and an object at 0x2000 |
| SlabLists.Transfer | kernel/mem/slab.c:150-173 | moving a slab from any place of one doubly linked list to the front of another leaves all three lists linked both ways and no other field changed |
| SlabLists.UnlinkLinks | kernel/mem/slab.c:186-193 | unlinking by the slab's own prev and next gives the list without it |
| SlabLists.PushLinks | kernel/mem/slab.c:52-76 | pushing gives the list with the slab in front |
| SlabState.LiveApart | kernel/mem/slab.c:78-129 | a live object does not overlap any other live object, header or free word, and has the cache's alignment when that divides the page size |
| SlabState.TakeContents | kernel/mem/slab.c:78-91 | taking keeps every free list and makes exactly one object live, one that was free and as the constructor or destructor left it |
| SlabState.GiveContents | kernel/mem/slab.c:94-129 | returning keeps every free list and makes exactly that object free; all others hold what they held |
| SlabState.GrowContents | kernel/mem/slab.c:52-76 | a new slab adds only free objects and changes no live one |
| SlabState.PigeonHole | kernel/mem/slab.c:94-129 | a slab with an object in use has a free list shorter than its count, so the use count cannot fall below zero |
| SlabState.NothingPartial | kernel/mem/slab.c:150-173 | with fewer than two objects to a slab, no reading of the lists is in order once the partial list has a slab |
| SlabState.SmallSlabExample | kernel/mem/slab.c:228-234 | 8 bytes aligned to 2048 give one object to a slab, 100 bytes aligned to 4096 none |
| SlabCode.SCache.constructor | kernel/mem/slab.c:220-243 | a new cache is empty and in order, whatever the sizes |
| SlabCode.SCache.InitDirect | kernel/mem/slab.c:23-35 | all objects constructed, free list through all words, nothing outside the slab written |
| SlabCode.SCache.InitIndirect | kernel/mem/slab.c:37-50 | the same with the words apart from the objects |
| SlabCode.SCache.GrowCache | kernel/mem/slab.c:52-76 | one more empty slab, or no change at all when memory is refused; live objects as they were |
| SlabCode.SCache.TakeObject | kernel/mem/slab.c:78-91 | the first free slot's object, null exactly when there is none |
| SlabCode.SCache.Alloc | kernel/mem/slab.c:131-178 | from any cache in order, the lists are in order afterwards exactly when slabs hold two objects or the call was refused; with two objects it fails exactly when no slab has room and no memory is granted, then changing nothing, and else a ready, aligned object that was not live is live: the first free one of the first partial slab, of the first empty slab when none is partial, and only without either of a new slab |
| SlabCode.SCache.AllAligned | kernel/mem/slab.c:131-178 | every live object of a cache in order has the cache's alignment when that divides the page size |
| SlabCode.SCache.FindSlab | kernel/mem/slab.c:101-115 | the search through full and partial slabs always ends at the object's own slab |
| SlabCode.SCache.ReturnObject | kernel/mem/slab.c:94-129 | the slab and free word found are the object's own, and that word is null as the source asserts |
| SlabCode.SCache.Free | kernel/mem/slab.c:180-218 | exactly the returned object stops being live, all others hold what they held, the lists again partition the slabs |
| HeapState.SuitsItself | kernel/mem/heap.c:28-38 | a block's capacity leads back to the one cache it came from |
| HeapState.PutBlock | kernel/mem/heap.c:47-57 | a block of one cache is one pointer of the heap, whose bytes alone change |
| HeapState.ResizedIs | kernel/mem/heap.c:59-88 | a resized block has the asked size, the old bytes as far as both reach, and zeros behind |
| HeapState.DropBlock | kernel/mem/heap.c:90-98 | freeing a block takes exactly its pointer out of the heap |
| HeapCode.TwoToASlab | kernel/mem/heap.c:40-45 | every heap cache fits two blocks to a slab, so the slab invariant holds for all twelve |
| HeapCode.Heap.constructor | kernel/mem/heap.c:40-45 | an empty heap with twelve valid caches |
| HeapCode.Heap.GetCache | kernel/mem/heap.c:28-38 | the smallest cache whose size suffices |
| HeapCode.Heap.Kmalloc | kernel/mem/heap.c:47-57 | null exactly when the cache of that size has no free object and gets no memory, and then no change; else a new pointer to zeros of that size, every other block unchanged, however the memory was recycled |
| HeapCode.Heap.Krealloc | kernel/mem/heap.c:59-88 | the first min(old, new) bytes kept and growth zero, also after a shrink; a block that shrinks or still suits its cache stays and never fails, any other moves, or fails exactly when the new cache is out of memory, and then nothing changes |
| HeapCode.Heap.Kfree | kernel/mem/heap.c:90-98 | exactly the pointer goes, and its object goes back to the cache it came from |
| FlatFile.PatchPage | kernel/filesystem/vfs.c:332-351 | patching one cached page is one splice of the flat file, and bytes past the end stay zero |
| FlatFile.Grow | kernel/filesystem/tmpfs.c:275-288 | a larger size appends zeros |
| FlatFile.AddPage | kernel/filesystem/tmpfs.c:290-310 | caching a zeroed page does not show in the file |
| FlatFile.SpliceTwice | kernel/filesystem/vfs.c:353-368 | two neighbouring splices are one |
| FlatFile.LoopCovers | kernel/filesystem/vfs.c:104-108 | in 64-bit arithmetic with wrap-around the page loop covers exactly what the first page leaves, except for one family of requests, for which it covers nothing |
| FlatFile.LostExample | kernel/filesystem/vfs.c:104-108 | 2^64 - 4095 bytes from offset 0: no first part and no turn of the loop |
| FlatFile.ReachExact | kernel/filesystem/vfs.c:353-368 | the pages a request gets to are the most whose uncached ones the free frames cover, and all of them exactly when there are frames enough |
| FlatFile.ReachStep | kernel/filesystem/vfs.c:353-368 | fetching the next page is one page of that reach; a page that cannot be fetched ends it |
| PageCache.AddOk | kernel/mem/vmm_cache.c:46-65 | entering a page keeps hash chains, vnode lists, reference counts and all files |
| PageCache.PatchOk | kernel/filesystem/vfs.c:332-351 | writing a cached page changes one file, by one splice |
| PageCache.DirtyStep | kernel/mem/vmm_cache.c:176-205 | the first dirty mark takes one reference and one place on the dirty list, and shows in no file |
| PageCache.MarksGoOn | kernel/filesystem/vfs.c:353-368 | marks for one part of a request and then for the next are the marks for both together: exactly the pages that hold a byte of them |
| FileIo.FileSystem.FindPage | kernel/mem/vmm_cache.c:33-44 | the hash chain walk finds the page of an offset exactly when one caches it |
| FileIo.FileSystem.NewPage | kernel/mem/vmm_cache.c:129-170 | no memory, past the end, or a zeroed page entered; an error leaves everything as it was |
| FileIo.FileSystem.GetPage | kernel/mem/vmm_cache.c:101-174 | the page of the offset, held once more; files unchanged, no cached page lost, each error exactly when due, a frame taken exactly for a page that was not cached, and no dirty mark changed |
| FileIo.FileSystem.MakeDirty | kernel/mem/vmm_cache.c:176-205 | the page is on the dirty list with the list's own reference, taken the first time only; no file and no other page changes, and every reference is accounted for |
| FileIo.FileSystem.FillPage | kernel/filesystem/vfs.c:332-361 | copying into a held page splices the file and leaves exactly that page dirty besides those that were |
| FileIo.FileSystem.Release | include/mem/page.h:50-59 | a cached page keeps its own reference, so releasing it never frees it |
| FileIo.FileSystem.Resize | kernel/filesystem/tmpfs.c:275-288 | the file grows by zeros, no other file changes |
| FileIo.FileSystem.TmpfsGetPage | kernel/filesystem/tmpfs.c:290-310 | refused exactly at or past the end; else held and zero |
| FileIo.FileSystem.Write | kernel/filesystem/vfs.c:294-373 | every file is as before, but this one is the old one, grown by zeros to reach the end of the request, with the first `written` bytes of the buffer spliced in at the offset; all of them on success; out of memory exactly when the free frames are fewer than the request's uncached pages, and then all are used and `written` is what the pages before the first one without a frame hold of the request; every page that holds a byte written is cached, dirty and on the dirty list, and no other page becomes dirty; overflow refused; no cached page freed |
| FileIo.FileSystem.Read | kernel/filesystem/vfs.c:375-454 | exactly the bytes between offset and end of file, clamped; when, and exactly when, the free frames are fewer than the request's uncached pages, what the pages before the first one without a frame hold of them; no file and no dirty mark changes; overflow refused |
| RangeList.CutMeaning | kernel/mem/vmm.c:594-747 | what is left of one range maps each remaining address as before, file offsets included |
| RangeList.CutAllMeaning | kernel/mem/vmm.c:576-753 | removing an interval from a sorted list leaves a sorted list that maps exactly the addresses outside it, each as before |
| RangeList.CutAllCoalesced | kernel/mem/vmm.c:576-753 | removing an interval never leaves neighbours that should have been merged |
| RangeList.InsertMeaning | kernel/mem/vmm.c:478-541 | inserting a range into a sorted, coalesced list gives a sorted, coalesced list that maps the new addresses to the new range and all others as before |
| RangeList.JoinMeaning | kernel/mem/vmm.c:512-539 | merging two ranges maps every address as the two did |
| RangeWalk.InsertGood | kernel/mem/vmm.c:478-541 | an address found by the search keeps the list sorted, disjoint, coalesced, aligned and inside the space |
| RangeWalk.CutAllGood | kernel/mem/vmm.c:576-753 | removing an interval keeps the list sorted, disjoint, coalesced, aligned and inside the space |
| RangeWalk.FitIsAligned | kernel/mem/vmm.c:368-401 | the least fitting address above an aligned hint is aligned |
| RangeLinks.GuardedIs | kernel/mem/vmm.c:594-603 | the condition of `ChangeMap`, found by walking the list, is that no range is covered by the interval or the first covered one has its `prev` right |
| RangeLinks.CutMarksRight | kernel/mem/vmm.c:594-603 | with every `prev` right, a removal does what it is meant to and leaves every `prev` right |
| RangeLinks.InsertMarksRight | kernel/mem/vmm.c:478-541 | with every `prev` right, an insertion keeps them right exactly at an end of the list or with a merge |
| RangeLinks.CutListExact | kernel/mem/vmm.c:576-753 | the list a removal leaves is the one meant exactly when the first `prev` it follows is right; it maps what it should exactly when that `prev` does not lead to an earlier range of the list, and else the range before the first covered one is lost |
| AddressSpace.MiddleInsertExample | kernel/mem/vmm.c:499-503 | three separate pages, the middle one last: an insert for which the condition of `InsertRange` is false |
| AddressSpace.UncheckedExample | kernel/mem/vmm.c:368-375 | two pages asked for one page before the end of an empty space are granted, one of them outside |
| AddressSpace.Space.GetFreeRange | kernel/mem/vmm.c:368-401 | on a non-empty list the least fitting address at or above the hint, none exactly when none fits; on an empty one the hint |
| AddressSpace.Space.DestroyRange | kernel/mem/vmm.c:413-437 | exactly the pages of the interval leave the page table |
| AddressSpace.Space.Unlink | kernel/mem/vmm.c:597-603 | the list goes on behind whatever range the node's own `prev` names, all between them dropping out, and the next node's `prev` is that; when that range has left the list, the node stays |
| AddressSpace.Space.VisitWhole | kernel/mem/vmm.c:594-607 | a covered range is unlinked through its own `prev`, right or stale, its size zeroed and its pages gone |
| AddressSpace.Space.VisitSplit | kernel/mem/vmm.c:618-671 | a range around the interval becomes two, linked both ways, the upper with its file offset moved on |
| AddressSpace.Space.VisitFront | kernel/mem/vmm.c:672-710 | the front is cut off and the file offset moved on |
| AddressSpace.Space.VisitBack | kernel/mem/vmm.c:711-747 | the back is cut off |
| AddressSpace.Space.ChangeMap | kernel/mem/vmm.c:576-753 | the pass with free = true, on any sorted, aligned list whose `prev` links may be stale: exactly the interval leaves the page table; exactly the interval leaves the list, every other address mapped as before, if and only if the first range to be unlinked has its `prev` right, and then the list stays good if it was; what the list is in the other cases; the head never has a `prev`, as the source asserts; a list linked both ways stays so |
| AddressSpace.Space.FindPlace | kernel/mem/vmm.c:478-498 | the walk stops exactly where the new range belongs |
| AddressSpace.Space.InsertRange | kernel/mem/vmm.c:478-541 | the list followed by `next` is the old one with the range inserted and merged, also when some `prev` was stale; which `prev` are right then; in a list linked both ways `prev` stays right everywhere exactly when, in the old list, the place is at an end or a neighbour there continues or is continued by the range |
| AddressSpace.Space.Map | kernel/mem/vmm.c:191-280 | takes the least fitting address from the hint on, or refuses an exact request that is not it; then exactly the new range is added to what addresses map to; the list stays good exactly unless it was empty and the range too large, and which `prev` are right is as for `InsertRange` |
| AddressRuns.RunMeaning | kernel/mem/vmm.c:478-753 | in every state of every run of inserts and of removals (`change_map` with free = true) that each meet the condition of `ChangeMap`, the list is sorted, coalesced, aligned and inside the space, and each address maps to what the last operation that touched it said |
| AddressRuns.TidyRun | kernel/mem/vmm.c:478-753 | while every insert goes to an end of the list or merges, every `prev` is right in every state of the run, and any removal meets that condition |
| AddressRuns.LostRangeExample | kernel/mem/vmm.c:594-603 | after mapping 0x1000, 0x5000 and 0x3000, unmapping 0x5000 leaves only the range at 0x1000 |
| AddressRuns.Canonical | kernel/mem/vmm.c:512-539 | two sorted, coalesced lists that map every address alike are the same list |
| AddressRuns.RunsAgree | kernel/mem/vmm.c:478-753 | such runs that leave the same meaning leave the same list, whatever was merged and split on the way |
| AddressRuns.MapThenUnmap | kernel/mem/vmm.c:478-753 | in any state of such a run, stale links or not, removing what was just inserted meets the condition of `ChangeMap` and restores the list from before |
| TimerQueue.PutSorted | kernel/sys/timer.c:12-43 | insertion keeps the queue sorted, entries of equal deadline in queueing order |
| TimerQueue.DuePut | kernel/sys/timer.c:45-58 | re-queueing for later leaves the number due now alone, so the firing loop ends |
| TimerQueue.FireHead | kernel/sys/timer.c:45-58 | firing the head at its deadline keeps every entry on its schedule |
| TimerQueue.FireAgain | kernel/sys/timer.c:51-52 | a repeating entry is queued for exactly one period after the firing that was due: its k-th firing is at start + k periods |
| TimerQueue.FireOnce | kernel/sys/timer.c:53-54 | a one-shot entry has fired once, at its deadline |
| TimerQueue.RepeatingLasts | kernel/sys/timer.c:60-72 | while a repeating entry is installed there is always something left to arm for |
| TimerCode.Timer.Enqueue | kernel/sys/timer.c:12-43 | the walk inserts behind every entry that is not later |
| TimerCode.Timer.Check | kernel/sys/timer.c:45-58 | ends; fires only at the current tick; leaves nothing due; leaves nothing at all exactly when all was one-shot and due |
| TimerCode.Timer.Resume | kernel/sys/timer.c:60-72 | keeps the queue sorted, stable and not overdue; the queue pointer followed is null exactly when nothing lasts |
| TimerCode.Timer.Stop | kernel/sys/timer.c:74-84 | time advances by what the device reports and nothing becomes overdue |
| TimerCode.Timer.Insert | kernel/sys/timer.c:108-134 | the entry's schedule starts now; everything else as for `Resume`, exactly stated |
| TimerCode.Timer.Isr | kernel/sys/timer.c:136-156 | time is exactly the deadline the device was armed for, the due entry fires first and only entries due now fire |
| TimerCode.RearmExample | kernel/sys/timer.c:66-69 | a one-shot entry without delay in a stopped timer: the insert succeeds and starting the timer follows a null pointer |
| RingBuffer.WriteView | kernel/lib/ringbuffer.c:45-60 | a write appends what was stored and overwrites nothing unread |
| RingBuffer.StraddleExact | kernel/lib/ringbuffer.c:55-56 | the bytes appended are those given exactly when the write does not cross the end or the stale bytes are the same |
| RingBuffer.StraddleExample | kernel/lib/ringbuffer.c:55-56 | a two-byte record across the end comes out with a stale byte |
| RingBuffer.WholeRecords | drivers/char/keyboard.c:15 | records whose size divides the ring never cross its end |
| RingBuffer.Ring.Read | kernel/lib/ringbuffer.c:28-43 | the oldest bytes, in order, as many as there are |
| RingBuffer.Ring.Write | kernel/lib/ringbuffer.c:45-60 | appends as much as fits, with stale bytes for any part past the end of the ring |
| KeyboardRuns.RunKeeps | drivers/char/keyboard.c:71-169 | in every state of every run the stored events are the positive semaphore count plus readers granted but not yet reading plus the one not yet signalled |
| KeyboardRuns.RunExact | drivers/char/keyboard.c:119-169 | in every state of every run the events accepted are exactly those pressed while fewer than 100 were stored, in order; each read has delivered one; and the counter is what the signals, waits and successful tests make it |
| KeyboardRuns.SameSemaphore | kernel/sys/semaphore.c:61-128 | the keyboard's wait, test and signal are what those of the semaphore protocol look like from its counter and number of waiters |
| KeyboardRuns.EventsDelivered | drivers/char/keyboard.c:142-169 | the read's assert never fires, and events leave in the order they were accepted, none lost, none doubled |
| KeyboardRuns.NoEventStranded | drivers/char/keyboard.c:121-124 | with no reader on the way, every stored event is counted by the semaphore and nobody waits |
| KeyboardCode.Keyboard.Press | drivers/char/keyboard.c:119-124 | with room for two bytes the ring holds flags and keycode behind what it held and 2 is returned; else it holds what it held and 0 is returned |
| KeyboardCode.Keyboard.Read | drivers/char/keyboard.c:142-169 | the oldest two bytes leave the ring and are the event, the oldest one accepted and not delivered |
| KeyboardCode.Keyboard.Signal | drivers/char/keyboard.c:122-124 | the counter goes up by one, and one waiting reader fewer exactly when it was negative |
| KeyboardCode.Keyboard.Test | drivers/char/keyboard.c:142-144 | succeeds exactly when the counter is positive, and then takes one |
| KeyboardCode.Keyboard.Wait | drivers/char/keyboard.c:156-159 | the counter goes down by one, and one waiting reader more exactly when it was not positive |
| BitmapAllocator.SetUsed | kernel/lib/bitmap.c:47-54 | setting one bit of one byte changes one block |
| BitmapAllocator.RunsApart | kernel/lib/bitmap.c:56-66 | a run allocated later does not meet one allocated before |
| BitmapAllocator.FreeRestores | kernel/lib/bitmap.c:68-74 | freeing what was allocated restores the bitmap |
| BitmapAllocator.Bitmap.Get | kernel/lib/bitmap.c:41-45 | the block's bit |
| BitmapAllocator.Bitmap.Set | kernel/lib/bitmap.c:47-54 | one block changes |
| BitmapAllocator.Bitmap.MarkBlocks | kernel/lib/bitmap.c:68-74 | exactly the run changes, and every block below `last_deep_fragmented` stays used |
| BitmapAllocator.Bitmap.FindFreeRegion | kernel/lib/bitmap.c:19-39 | the lowest run of free blocks of the whole bitmap, none exactly when there is none |
| BitmapAllocator.Bitmap.Allocate | kernel/lib/bitmap.c:56-66 | takes the lowest run and no other bit, fails exactly when there is none; null also, and only then, for a run at address zero |
| ElfLoad.MisalignedExact | init/elf.c:95-103 | a file offset inside a page reaches `vmm_map` exactly for headers with whole file pages whose address and offset differ modulo the page size |
| ElfLoad.MisalignedExample | init/elf.c:95-103 | a page of the file at offset 0x10 for address 0x1000 |
| ElfLoad.PagesMet | init/elf.c:52-133 | the pages mapped are exactly those that meet the segment in memory |
| ElfLoad.VerdictIs | init/elf.c:52-139 | a load succeeds only for a header that is not misaligned, a file that is long enough and pages that are free; when mappings and reads do not run out and the pages are free, exactly then; a short file alone gives ENOEXEC, a misaligned header alone the failed assert |
| ElfLoad.Process.FillFirst | init/elf.c:64-79 | the unaligned first page holds the file's bytes at the address and zeros around |
| ElfLoad.Process.ZeroRest | init/elf.c:81-91 | what the segment has of the first page behind the file part is zero, and the rest of the segment starts at the next page or is nothing |
| ElfLoad.Process.MapMiddle | init/elf.c:94-113 | whole file pages hold the file's bytes; the assert on the offset fails exactly when it is inside a page and there was room, which is looked for first |
| ElfLoad.Process.MapLast | init/elf.c:115-127 | the last file page holds the file's bytes and zeros behind |
| ElfLoad.Process.MapZeros | init/elf.c:129-133 | the pages past the file read as zero |
| ElfLoad.Process.Load | init/elf.c:52-139 | on success exactly the pages of the segment, none mapped before, are mapped, with the file's bytes and zeros elsewhere, all other memory untouched; any other outcome is that of the first part that does not go through: out of memory or a page taken, the failed assert, a read that fails, a file that is too short; what that means for the whole is `VerdictIs` |
| ElfStack.EndianRoundTrip | init/elf.c:258-276 | a word written little-endian reads back |
| ElfStack.DigitAt | init/elf.c:258-276 | byte i of a word is its i-th digit to base 256, least significant first |
| ElfStack.Stack.CopyStrings | init/elf.c:260-270 | the strings lie one after another and the pointer array leads to them, nothing else written |
| ElfStack.Stack.Prepare | init/elf.c:218-277 | the stack pointer is 16-byte aligned; memory from it on is, byte by byte at its address, argc, one pointer to each string of argv, null, one to each of envp, null, auxv, every word least significant byte first; areas do not overlap; only memory below the top is written; by how much the size mapped at once falls short |
| ElfStack.HoldsLaid | init/elf.c:258-276 | what the writes leave is the layout of section 3.4.1 of the System V AMD64 psABI, byte by byte |
| ElfStack.DecodesOnce | init/elf.c:218-277 | such memory reads back as exactly one argument list, environment and auxiliary vector |
| ElfStack.StackPointers | init/elf.c:260-270 | the pointers written are never null, so the lists end where they should |
| PathWalk.WalkExact | kernel/filesystem/vfs.c:110-230 | the lookup is the recursive walk over the path's components exactly when the path is not too long and not an empty path whose parent is asked for |
| PathWalk.ComponentsDecide | kernel/filesystem/vfs.c:140-173 | paths with the same components, within the length and both empty or not, have the same result |
| PathWalk.EmptyPathExample | kernel/filesystem/vfs.c:115-118 | the empty path and "/" have the same components and different parent lookups |
| PathLaws.WalkConcat | kernel/filesystem/vfs.c:140-222 | walking the components a and then b is walking b from where a ends, errors of a first |
| PathLaws.ComponentsJoin | kernel/filesystem/vfs.c:133-152 | the components of two paths joined by a separator are those of the one and then those of the other |
| PathLaws.OneComponent | kernel/filesystem/vfs.c:133-152 | a name without separators is its own only component |
| PathLaws.JoinLaw | kernel/filesystem/vfs.c:110-230 | looking up p/q is looking up q from what p finds |
| PathLaws.LastLaw | kernel/filesystem/vfs.c:160-164 | with the parent asked for, the result is the directory all but the last component lead to, and that component |
| PathLaws.FoundOnTop | kernel/filesystem/vfs.c:200-212 | a vnode found is never one that something is mounted on |
| PathLaws.RootLaw | kernel/filesystem/vfs.c:178-184 | a path of nothing but ".." from the root finds the root, on top of its mounts |
| PathLaws.UpFromMount | kernel/filesystem/vfs.c:186-194 | ".." from the root of a mounted file system is ".." from the vnode at the bottom of its stack of mounts |
| PathLaws.NameLaw | kernel/filesystem/vfs.c:196-212 | a name leads to what the directory's table has for it, on top of what is mounted there |
| PathLaws.ParentLaw | kernel/filesystem/vfs.c:176-222 | in a tree whose ".." entries are where the directory's own entry is, cs/.. is the parent directory of what cs finds, across mounts |
| PathLaws.ThereAndBack | kernel/filesystem/vfs.c:176-222 | in such a tree cs/name/.. is cs, whatever is mounted on name |
| PathLaws.ErrorsExact | kernel/filesystem/vfs.c:140-222 | ENOTDIR exactly when the walk gets to a component with no directory to look it up in, ENOENT exactly when it gets to one that the directory has no entry for |
| PathLaws.LookupErrors | kernel/filesystem/vfs.c:110-230 | the same for paths; ENAMETOOLONG exactly above 512 characters, and ENOENT for the parent of the empty path |
| PathWalk.Highest | kernel/filesystem/vfs.c:90-96 | ends at a vnode nothing is mounted on |
| PathWalk.Lowest | kernel/filesystem/vfs.c:98-102 | ends at a vnode that is no file system's root |
| PathWalk.SameStack | kernel/filesystem/vfs.c:90-102 | going up and then down a stack of mounts ends where going down does |
| PathWalk.SameTop | kernel/filesystem/vfs.c:90-102 | going down and then up ends where going up does |
| LookupCode.Vfs.HighestNode | kernel/filesystem/vfs.c:90-96 | the loop up the mounts |
| LookupCode.Vfs.LowestNode | kernel/filesystem/vfs.c:98-102 | the loop down the mounts |
| LookupCode.Vfs.LookupChild | kernel/filesystem/tmpfs.c:330-348 | the child, held, or the error of a non-directory or a missing name |
| LookupCode.Vfs.Step | kernel/filesystem/vfs.c:176-222 | one component of the walk, the one reference moving along, dropped on failure |
| LookupCode.Vfs.WalkPath | kernel/filesystem/vfs.c:140-226 | the scan of the cleared buffer is the walk over the components |
| LookupCode.Vfs.Lookup | kernel/filesystem/vfs.c:110-230 | the result of the walk; exactly one reference more on the vnode found, none changed on failure, no vnode made inactive |
| Base32.CharRoundTrip | shard/geode/encodings.c:72-94 | every five-bit value comes back from its character; padding is no character |
| Base32.AlphabetIs | shard/geode/encodings.c:72-94 | every value has the character of table 3 of RFC 4648, every character its value, and padding is '=' |
| Base32.BlocksAreBits | shard/geode/encodings.c:141-181 | the blocks of a group are the forty bits of its octets, five at a time, first bits first |
| Base32.EncodeIsRfc | shard/geode/encodings.c:160-192 | every character of an encoding is that of section 6 of RFC 4648: from the table for five bits of its group while the group has bits left, else padding |
| Base32.SourceCutIs | shard/geode/encodings.c:141-181 | the shifts with negative offsets cut each block as the RFC's figure does |
| Base32.SourcePieces | shard/geode/encodings.c:194-213 | the shifts put each block where the figure does, in one octet or two |
| Base32.GroupRoundTrip | shard/geode/encodings.c:160-214 | every octet of a group of one to five comes back from its blocks |
| Base32.RoundTrip | shard/geode/encodings.c:185-228 | the encoding of any octets followed by any character outside the alphabet decodes to them |
| Base32.EncodeSequence | shard/geode/encodings.c:160-183 | eight characters for the group, padded, nothing else written |
| Base32.Base32Encode | shard/geode/encodings.c:185-192 | the whole encoding and nothing behind it |
| Base32.DecodeSequence | shard/geode/encodings.c:194-215 | the octets of one group; one octet behind may be touched, no other |
| Base32.Base32Decode | shard/geode/encodings.c:217-228 | the decoded octets and their number; no octet past index `written` is touched |
| Calendar.DaysClosed | kernel/lib/time.c:4-49 | days counted year by year from 1970, forward and back, have the closed form with the leap-year divisions |
| Calendar.FastYear | kernel/lib/time.c:5-14 | the fast path counts the same days and the same leap year for 1902 to 2038 and stays within 32 bits |
| Calendar.GeneralYear | kernel/lib/time.c:16-48 | the general path counts the days of any year, also before 1970 |
| Calendar.YearToSecs | kernel/lib/time.c:4-49 | both paths together |
| Calendar.MonthToSecs | kernel/lib/time.c:51-60 | the table is the count of the months' days |
| Calendar.TmToSecs | kernel/lib/time.c:62-82 | 86400 times the days counted to the date plus the time of day, for every year and any month, normalised or not |
| Calendar.TwelveMonths | kernel/lib/time.c:65-74 | twelve months more are one year more, so a month out of range means what the normalised one does |
| Calendar.CountedIsPosix | kernel/lib/time.c:62-82 | that count is the formula of section 4.16 of POSIX.1-2017 XBD |

## Left out

- Interrupted waits and timeouts (`sched_sleep`, signals to sleeping threads) as steps of the protocol: counter and queue need not agree there. Of them only the list operation is modelled (`RemoveCurrentThread`).
- The window in which a pass has released the run-queue lock before `switch_thread` takes it again: a pass is one step.
- Priorities other than by run queue, load averages, processes and `exec`.
- SchedulerCode.Scheduler.Wakeup: models the plain wake-up reason only, because the others belong to interrupted waits.
- `purge`, `slab_freecache` and locking of caches; sizes whose products wrap 64 bits; the cache of caches.
- `kcalloc` and `kstrdup`: they add nothing to `kmalloc`; sizes above 65536 fail an assert and are excluded.
- `change_map` with free = false, which `vmm_unmap` does before the pass with free = true (kernel/mem/vmm.c:298) and `vmm_change_mmu_flags` does alone: it splits ranges through `insert_range` and starts the tail of a range cut at its end at the wrong address (kernel/mem/vmm.c:723). An unmap here is the pass with free = true.
- Protection changes, vnode counts of ranges, physical and demand mapping of pages.
- AddressSpace.Space.ChangeMap: list nodes given back are not handed out again and do not run out, because `alloc_range` and its node caches are not modelled. So a stale `prev` never comes to name a node in use for something else.
- AddressSpace.Space.Map: models the range list, not the page tables `vmm_map` fills. When `pmm_alloc_page` or `mmu_map` fails on the way (kernel/mem/vmm.c:235-262), the source returns the address, set at line 220, without inserting the range; that outcome is not modelled, and the memory granted to slab caches and to the ELF loader is memory for which it did not happen.
- Concurrency in the page cache, write-back, truncation, block devices, special files, and running out of page descriptors apart from pages; hash chains and vnode lists are sequences, not intrusive links.
- The timer queue is a sequence, not linked nodes; `timer_remove` is not implemented in the source.
- The console copy of each keyboard event (the same steps on a second keyboard), modifier keys, `kb_read`, ASCII tables; ring counters that wrap 64 bits.
- `bitmap_mark_region` and the physical memory manager over the bitmap.
- ELF headers other than one load segment, protection flags, the program break, `vaddr + memsz` wrapping 64 bits.
- Symbolic links in lookups (not implemented in the source), permissions, hash tables behind directories.
- AT_* values of the auxiliary vector: it is eighty bytes copied as they are.
- The shell language beside the kernel, drivers, interrupt entry, page tables, consoles and the remaining libraries.
